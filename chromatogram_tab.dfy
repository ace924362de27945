/**
 * The analysis state of a chromatogram tab: the one line it shows, and the
 * peaks, integrations and Mecozzi fits recorded for it, each a dictionary
 * keyed by the line's id. Widgets, plotting and dialogs are not modelled;
 * the filter, fit and array libraries are parameters.
 */
module ChromatogramTab {
  import opened Wrappers
  import opened Arrays
  import opened ChromatogramColumns
  import PeakAnalysis
  import Fitting

  type LineId = string

  /** The values of the window, polynomial-order, smoothing and invert controls. */
  datatype FilterSettings = FilterSettings(window: int, polyOrder: int, sigma: real, invert: bool)

  /** `np.max(raw) - raw`: every value is non-negative, and 0 exactly at the maxima. */
  function Inverted(raw: seq<real>): (r: seq<real>)
    requires |raw| > 0
    ensures |r| == |raw|
    ensures forall i :: 0 <= i < |raw| ==> r[i] >= 0.0
    ensures forall i :: 0 <= i < |raw| ==> (r[i] == 0.0 <==> forall k :: 0 <= k < |raw| ==> raw[k] <= raw[i])
  {
    var m := Max(raw);
    seq(|raw|, i requires 0 <= i < |raw| => m - raw[i])
  }

  /**
   * The filtered trace `apply_filters` computes from the raw intensities:
   * inverted if asked, then Savitzky-Golay with an odd window when the trace is
   * longer than it, then Gaussian smoothing for a positive sigma. None when
   * `np.max` of an empty trace raises or the Savitzky-Golay filter raises.
   */
  function FilterLine(raw: seq<real>, s: FilterSettings, savgol: PeakAnalysis.SavGol, gauss: PeakAnalysis.Gauss)
    : (r: Option<seq<real>>)
  {
    if s.invert && raw == [] then None
    else
      var start := if s.invert then Inverted(raw) else raw;
      var w := PeakAnalysis.OddWindow(s.window);
      var smoothed := if |start| > w then PeakAnalysis.ApplySavitzkyGolay(start, w, s.polyOrder, savgol) else Some(start);
      match smoothed
      case None => None
      case Some(f) => Some(PeakAnalysis.ApplyGaussianSmooth(f, s.sigma, gauss))
  }

  /**
   * The filter fails exactly when an empty trace is inverted or the
   * Savitzky-Golay filter raises on a trace longer than the odd window.
   */
  lemma FilterLineFails(raw: seq<real>, s: FilterSettings, savgol: PeakAnalysis.SavGol, gauss: PeakAnalysis.Gauss)
    ensures FilterLine(raw, s, savgol, gauss).None? <==>
            (s.invert && raw == []) ||
            (var start := if s.invert then Inverted(raw) else raw;
             |start| > PeakAnalysis.OddWindow(s.window) &&
             savgol(start, PeakAnalysis.OddWindow(s.window), s.polyOrder).None?)
  {
    var w := PeakAnalysis.OddWindow(s.window);
    assert PeakAnalysis.OddWindow(w) == w;
  }

  /**
   * When the trace is no longer than the window and sigma is not positive,
   * neither filter runs: the result is the raw trace, or its inversion, which
   * is non-negative and 0 at the raw maximum.
   */
  lemma FilterLinePassThrough(raw: seq<real>, s: FilterSettings, savgol: PeakAnalysis.SavGol, gauss: PeakAnalysis.Gauss)
    requires |raw| <= PeakAnalysis.OddWindow(s.window) && s.sigma <= 0.0
    requires s.invert ==> |raw| > 0
    ensures var r := FilterLine(raw, s, savgol, gauss);
            r.Some? && |r.value| == |raw| &&
            (!s.invert ==> r.value == raw) &&
            (s.invert ==> (forall i :: 0 <= i < |raw| ==> r.value[i] >= 0.0) &&
                          (forall i :: 0 <= i < |raw| && raw[i] == Max(raw) ==> r.value[i] == 0.0))
  {
  }

  /**
   * The filtered trace is as long as the raw one when both library filters
   * keep the length of their input, as SciPy's do.
   */
  lemma FilterLineKeepsLength(raw: seq<real>, s: FilterSettings, savgol: PeakAnalysis.SavGol, gauss: PeakAnalysis.Gauss)
    requires forall d, w, p :: savgol(d, w, p).Some? ==> |savgol(d, w, p).value| == |d|
    requires forall d, sigma :: |gauss(d, sigma)| == |d|
    ensures FilterLine(raw, s, savgol, gauss).Some? ==> |FilterLine(raw, s, savgol, gauss).value| == |raw|
  {
  }

  /**
   * `update_chromatogram_display` raises for a line with data when its arrays
   * differ in length, a peak lies past them, or an integration is empty
   * (`np.max` of an empty slice) or ends past the filtered values. For a line
   * with an empty array it skips the plot, but `update_results_text`, which it
   * always calls, still indexes both arrays at every peak and every
   * integration, and so raises as soon as there is one of either.
   */
  predicate DisplayFails(line: LineData, peaks: Option<seq<nat>>, ints: seq<(nat, nat)>)
  {
    var d, f := line.distances, line.filtered;
    ((|d| == 0 || |f| == 0) && ((peaks.Some? && peaks.value != []) || ints != [])) ||
    (|d| > 0 && |f| > 0 &&
     (|d| != |f| ||
      (peaks.Some? && exists k :: 0 <= k < |peaks.value| && (peaks.value[k] >= |d| || peaks.value[k] >= |f|)) ||
      exists j :: 0 <= j < |ints| && (ints[j].0 >= ints[j].1 || ints[j].1 >= |f|)))
  }

  /** The selected range: the nearest samples to both ends, in order. */
  function SelectionBounds(d: seq<real>, a: real, b: real): (r: (nat, nat))
    requires |d| > 0
    ensures r.0 <= r.1 < |d|
    ensures {r.0, r.1} == {NearestIndex(d, a), NearestIndex(d, b)}
  {
    var s, e := NearestIndex(d, a), NearestIndex(d, b);
    if s > e then (e, s) else (s, e)
  }

  /** What each peak's fit attempt gives, in peak order. */
  function Attempts(x: seq<real>, y: seq<real>, peaks: seq<nat>,
                    curveFit: Fitting.CurveFit, ln: real -> real, exp: real -> real)
    : (r: seq<Result<Fitting.FitRecord, Fitting.FitError>>)
    ensures |r| == |peaks|
  {
    seq(|peaks|, k requires 0 <= k < |peaks| => Fitting.FitMecozziToPeak(x, y, peaks[k], curveFit, ln, exp))
  }

  /** The records of the attempts that succeeded, in order. */
  function Successes(rs: seq<Result<Fitting.FitRecord, Fitting.FitError>>): (r: seq<Fitting.FitRecord>)
    ensures |r| <= |rs|
  {
    if rs == [] then []
    else
      var front := Successes(rs[..|rs| - 1]);
      match rs[|rs| - 1]
      case Ok(fit) => front + [fit]
      case Err(_) => front
  }

  /** Collecting successes over a run of attempts is collecting them part by part: a failure does not stop the rest. */
  lemma {:induction false} SuccessesAppend(a: seq<Result<Fitting.FitRecord, Fitting.FitError>>,
                                           b: seq<Result<Fitting.FitRecord, Fitting.FitError>>)
    ensures Successes(a + b) == Successes(a) + Successes(b)
    decreases |b|
  {
    if b == [] {
      assert a + b == a;
    } else {
      var m := |b| - 1;
      assert (a + b)[..|a + b| - 1] == a + b[..m];
      SuccessesAppend(a, b[..m]);
    }
  }

  /** One more attempt adds its record when it succeeded and nothing when it failed. */
  lemma SuccessesStep(rs: seq<Result<Fitting.FitRecord, Fitting.FitError>>, i: nat)
    requires i < |rs|
    ensures Successes(rs[..i + 1]) == Successes(rs[..i]) + (if rs[i].Ok? then [rs[i].value] else [])
  {
    assert rs[..i + 1][..i] == rs[..i];
  }

  /** Every kept record is the record of a successful attempt. */
  lemma {:induction false} SuccessesMembers(rs: seq<Result<Fitting.FitRecord, Fitting.FitError>>)
    ensures forall i :: 0 <= i < |Successes(rs)| ==> exists k :: 0 <= k < |rs| && rs[k] == Ok(Successes(rs)[i])
    decreases |rs|
  {
    if rs != [] {
      var m := |rs| - 1;
      var front := Successes(rs[..m]);
      SuccessesMembers(rs[..m]);
      var r := Successes(rs);
      forall i | 0 <= i < |r|
        ensures exists k :: 0 <= k < |rs| && rs[k] == Ok(r[i])
      {
        if i < |front| {
          assert exists k :: 0 <= k < |rs[..m]| && rs[..m][k] == Ok(front[i]);
          var k :| 0 <= k < |rs[..m]| && rs[..m][k] == Ok(front[i]);
          assert rs[k] == Ok(r[i]);
        } else {
          assert rs[m] == Ok(r[i]);
        }
      }
    } else {
      assert |Successes(rs)| == 0;
    }
  }

  /** The number of successes is the number of attempts that succeeded. */
  function OkCount(rs: seq<Result<Fitting.FitRecord, Fitting.FitError>>): nat
  {
    if rs == [] then 0 else OkCount(rs[..|rs| - 1]) + (if rs[|rs| - 1].Ok? then 1 else 0)
  }

  lemma {:induction false} SuccessesCount(rs: seq<Result<Fitting.FitRecord, Fitting.FitError>>)
    ensures |Successes(rs)| == OkCount(rs)
    decreases |rs|
  {
    if rs != [] {
      SuccessesCount(rs[..|rs| - 1]);
    }
  }

  /** When every attempt succeeds, the successes are all the records, in order. */
  lemma {:induction false} AllSucceed(rs: seq<Result<Fitting.FitRecord, Fitting.FitError>>)
    requires forall k :: 0 <= k < |rs| ==> rs[k].Ok?
    ensures var r := Successes(rs);
            |r| == |rs| && forall k :: 0 <= k < |rs| ==> r[k] == rs[k].value
    decreases |rs|
  {
    if rs != [] {
      var m := |rs| - 1;
      assert forall k :: 0 <= k < m ==> rs[..m][k] == rs[k];
      AllSucceed(rs[..m]);
    }
  }

  /** Each fit kept by `fit_all_peaks` is the successful fit of one of the peaks, and records that peak. */
  lemma SuccessfulFitsOfPeaks(x: seq<real>, y: seq<real>, peaks: seq<nat>,
                              curveFit: Fitting.CurveFit, ln: real -> real, exp: real -> real)
    ensures var r := Successes(Attempts(x, y, peaks, curveFit, ln, exp));
            forall i :: 0 <= i < |r| ==>
              exists k :: 0 <= k < |peaks| && Fitting.FitMecozziToPeak(x, y, peaks[k], curveFit, ln, exp) == Ok(r[i]) &&
                          r[i].peakIdx == Some(peaks[k])
  {
    var rs := Attempts(x, y, peaks, curveFit, ln, exp);
    var r := Successes(rs);
    SuccessesMembers(rs);
    forall i | 0 <= i < |r|
      ensures exists k :: 0 <= k < |peaks| && Fitting.FitMecozziToPeak(x, y, peaks[k], curveFit, ln, exp) == Ok(r[i]) &&
                          r[i].peakIdx == Some(peaks[k])
    {
      var k :| 0 <= k < |rs| && rs[k] == Ok(r[i]);
    }
  }

  /** When every peak's fit succeeds, there is one fit per peak, in peak order, each recording its peak. */
  lemma AllPeaksFitted(x: seq<real>, y: seq<real>, peaks: seq<nat>,
                       curveFit: Fitting.CurveFit, ln: real -> real, exp: real -> real)
    requires forall k :: 0 <= k < |peaks| ==> Fitting.FitMecozziToPeak(x, y, peaks[k], curveFit, ln, exp).Ok?
    ensures var r := Successes(Attempts(x, y, peaks, curveFit, ln, exp));
            |r| == |peaks| && forall k :: 0 <= k < |peaks| ==> r[k].peakIdx == Some(peaks[k])
  {
    var rs := Attempts(x, y, peaks, curveFit, ln, exp);
    AllSucceed(rs);
    forall k | 0 <= k < |peaks|
      ensures Successes(rs)[k].peakIdx == Some(peaks[k])
    {
    }
  }

  /**
   * The loop of `fit_all_peaks`: each peak's fit is attempted in order, a
   * failure is skipped, and the successes are kept and counted.
   */
  method FitEach(x: seq<real>, y: seq<real>, ps: seq<nat>,
                 curveFit: Fitting.CurveFit, ln: real -> real, exp: real -> real)
    returns (fits: seq<Fitting.FitRecord>, total: nat)
    ensures fits == Successes(Attempts(x, y, ps, curveFit, ln, exp))
    ensures total == |fits| == OkCount(Attempts(x, y, ps, curveFit, ln, exp))
  {
    ghost var attempts := Attempts(x, y, ps, curveFit, ln, exp);
    fits, total := [], 0;
    var i := 0;
    while i < |ps|
      invariant 0 <= i <= |ps|
      invariant fits == Successes(attempts[..i])
      invariant total == |fits|
    {
      SuccessesStep(attempts, i);
      var fit := Fitting.FitMecozziToPeak(x, y, ps[i], curveFit, ln, exp);
      if fit.Ok? {
        fits := fits + [fit.value];
        total := total + 1;
      }
      i := i + 1;
    }
    assert attempts[..i] == attempts;
    SuccessesCount(attempts);
  }

  lemma OnlyKey<K, V>(m: map<K, V>, a: K, b: K)
    requires |m| <= 1 && a in m && b in m
    ensures a == b
  {
    var rest := m.Keys - {a};
    assert |m.Keys| == |m|;
    assert |rest| == |m.Keys| - 1;
    assert rest == {};
    assert b !in rest;
  }

  class ChromatogramTab {
    /** `results_data`: the line shown in this tab, by id; there is at most one. */
    var resultsData: map<LineId, LineData>
    var peaks: map<LineId, seq<nat>>
    var integrations: map<LineId, seq<(nat, nat)>>
    var mecozziFits: map<LineId, seq<Fitting.FitRecord>>
    /** The x value where a drag on the chromatogram started, if any. */
    var selectionStart: Option<real>
    var manualIntegrationActive: bool
    var lineColor: string

    ghost predicate Valid()
      reads this
    {
      |resultsData| <= 1
    }

    /** The peak entry of a line: present or absent. */
    function PeakEntry(id: LineId): Option<seq<nat>>
      reads this
    {
      if id in peaks then Some(peaks[id]) else None
    }

    /** The integrations of a line; none when it has no entry. */
    function IntegrationsOf(id: LineId): seq<(nat, nat)>
      reads this
    {
      if id in integrations then integrations[id] else []
    }

    /** The fits of a line; none when it has no entry. */
    function FitsOf(id: LineId): seq<Fitting.FitRecord>
      reads this
    {
      if id in mecozziFits then mecozziFits[id] else []
    }

    /** The analysis of the tab's line, if it has one. */
    ghost function Current(): Option<Loaded>
      reads this
      requires Valid()
    {
      if resultsData == map[] then None
      else
        var id :| id in resultsData;
        Some(Loaded(resultsData[id], PeakEntry(id), IntegrationsOf(id), FitsOf(id)))
    }

    /** A new tab: no line, no analysis, the default grey line colour. */
    constructor ()
      ensures Valid()
      ensures resultsData == map[] && peaks == map[] && integrations == map[] && mecozziFits == map[]
      ensures selectionStart.None? && !manualIntegrationActive && lineColor == "#555555"
    {
      resultsData := map[];
      peaks := map[];
      integrations := map[];
      mecozziFits := map[];
      selectionStart := None;
      manualIntegrationActive := false;
      lineColor := "#555555";
    }

    /**
     * `apply_filters`. Without a line nothing happens; when the filter fails
     * nothing changes. Otherwise the line's filtered trace is replaced, and the
     * peaks, integrations and fits are all cleared, unless redrawing the
     * chart raises first, which leaves them in place.
     */
    method ApplyFilters(s: FilterSettings, savgol: PeakAnalysis.SavGol, gauss: PeakAnalysis.Gauss)
      requires Valid()
      modifies this`resultsData, this`peaks, this`integrations, this`mecozziFits
      ensures Valid()
      ensures old(resultsData) == map[] ==> unchanged(this)
      ensures forall id :: id in old(resultsData) ==>
                match FilterLine(old(resultsData)[id].rawIntensities, s, savgol, gauss)
                case None => unchanged(this)
                case Some(f) =>
                  var line := old(resultsData)[id].(filtered := f);
                  resultsData == old(resultsData)[id := line] &&
                  if DisplayFails(line, old(PeakEntry(id)), old(IntegrationsOf(id))) then
                    peaks == old(peaks) && integrations == old(integrations) && mecozziFits == old(mecozziFits)
                  else
                    peaks == map[] && integrations == map[] && mecozziFits == map[]
    {
      if resultsData == map[] {
        return;
      }
      var id :| id in resultsData;
      forall other | other in resultsData ensures other == id {
        OnlyKey(resultsData, other, id);
      }
      var r := FilterLine(resultsData[id].rawIntensities, s, savgol, gauss);
      if r.None? {
        return;
      }
      var line := resultsData[id].(filtered := r.value);
      resultsData := resultsData[id := line];
      if DisplayFails(line, PeakEntry(id), IntegrationsOf(id)) {
        return;
      }
      peaks := map[];
      integrations := map[];
      mecozziFits := map[];
    }

    /** `clear_peaks`: only the peaks are emptied. */
    method ClearPeaks()
      modifies this`peaks
      ensures peaks == map[]
      ensures resultsData == old(resultsData) && integrations == old(integrations) && mecozziFits == old(mecozziFits)
    {
      peaks := map[];
    }

    /** `clear_integrations`: only the integrations are emptied. */
    method ClearIntegrations()
      modifies this`integrations
      ensures integrations == map[]
      ensures resultsData == old(resultsData) && peaks == old(peaks) && mecozziFits == old(mecozziFits)
    {
      integrations := map[];
    }

    method EnableManualIntegration()
      modifies this`manualIntegrationActive
      ensures manualIntegrationActive
    {
      manualIntegrationActive := true;
    }

    method DisableManualIntegration()
      modifies this`manualIntegrationActive
      ensures !manualIntegrationActive
    {
      manualIntegrationActive := false;
    }

    /**
     * `fit_all_peaks`. Without a line or any peaks nothing happens. Otherwise
     * the fits are cleared; when the line has a non-empty peak list, its fits
     * become the successful fits in peak order, and the count is their number.
     */
    method FitAllPeaks(curveFit: Fitting.CurveFit, ln: real -> real, exp: real -> real) returns (totalFits: nat)
      requires Valid()
      modifies this`mecozziFits
      ensures Valid()
      ensures old(resultsData) == map[] || old(peaks) == map[] ==> mecozziFits == old(mecozziFits) && totalFits == 0
      ensures old(resultsData) != map[] && old(peaks) != map[] ==>
                forall id :: id in resultsData ==>
                  if id !in peaks || peaks[id] == [] then mecozziFits == map[] && totalFits == 0
                  else
                    var fits := Successes(Attempts(resultsData[id].distances, resultsData[id].filtered, peaks[id], curveFit, ln, exp));
                    mecozziFits == map[id := fits] && totalFits == |fits|
    {
      totalFits := 0;
      if resultsData == map[] || peaks == map[] {
        return;
      }
      mecozziFits := map[];
      var id :| id in resultsData;
      forall other | other in resultsData ensures other == id {
        OnlyKey(resultsData, other, id);
      }
      if id !in peaks || peaks[id] == [] {
        return;
      }
      var fits;
      fits, totalFits := FitEach(resultsData[id].distances, resultsData[id].filtered, peaks[id], curveFit, ln, exp);
      mecozziFits := map[id := fits];
    }

    /** `on_chrom_click`: a press on the chart, with a line shown, starts a selection there. */
    method OnChromClick(onChart: bool, xdata: real)
      modifies this`selectionStart
      ensures selectionStart == if onChart && resultsData != map[] then Some(xdata) else old(selectionStart)
    {
      if onChart && resultsData != map[] {
        selectionStart := Some(xdata);
      }
    }

    /**
     * `on_chrom_release`. A release on the chart that ends a started selection
     * over a line with data orders the nearest samples to both ends; in manual
     * mode that pair is appended to the line's integrations, earlier ones
     * kept. The selection is then reset, unless computing the area or
     * redrawing the chart raised after the append.
     */
    method OnChromRelease(onChart: bool, xdata: real)
      requires Valid()
      modifies this`integrations, this`selectionStart
      ensures Valid()
      ensures !onChart || old(resultsData) == map[] || old(selectionStart).None? ==> unchanged(this)
      ensures onChart && old(selectionStart).Some? ==>
                forall id :: id in resultsData ==>
                  var line := resultsData[id];
                  if |line.distances| == 0 || |line.filtered| == 0 then unchanged(this)
                  else
                    var b := SelectionBounds(line.distances, old(selectionStart).value, xdata);
                    var ints := old(IntegrationsOf(id)) + [b];
                    if manualIntegrationActive then
                      integrations == old(integrations)[id := ints] &&
                      selectionStart == (if b.1 >= |line.filtered| || DisplayFails(line, PeakEntry(id), ints)
                                         then old(selectionStart) else None)
                    else
                      integrations == old(integrations) && selectionStart.None?
    {
      if !onChart || resultsData == map[] || selectionStart.None? {
        return;
      }
      var id :| id in resultsData;
      forall other | other in resultsData ensures other == id {
        OnlyKey(resultsData, other, id);
      }
      var line := resultsData[id];
      if |line.distances| == 0 || |line.filtered| == 0 {
        return;
      }
      var b := SelectionBounds(line.distances, selectionStart.value, xdata);
      if manualIntegrationActive {
        var ints := IntegrationsOf(id) + [b];
        integrations := integrations[id := ints];
        if b.1 >= |line.filtered| || DisplayFails(line, PeakEntry(id), ints) {
          return;
        }
      }
      selectionStart := None;
    }

    /**
     * `save_data`: the table written for the tab's line, or None when there
     * is no line or the data cannot be written.
     */
    method SaveData(ln: real -> real, exp: real -> real) returns (r: Option<Table>)
      requires Valid()
      ensures Current().None? ==> r.None?
      ensures Current().Some? ==>
                var a := Current().value;
                r == SaveTable(a.line, a.peaks, a.integrations, a.fits, ln, exp)
    {
      if resultsData == map[] {
        return None;
      }
      var id :| id in resultsData;
      forall other | other in resultsData ensures other == id {
        OnlyKey(resultsData, other, id);
      }
      r := SaveTable(resultsData[id], PeakEntry(id), IntegrationsOf(id), FitsOf(id), ln, exp);
    }

    /**
     * `open_data`. A table without distance or filtered columns is refused and
     * nothing changes. Otherwise the tab holds a new line under a fresh id,
     * drawn in the tab's colour, and the peaks, integrations and fits read from
     * the table, each entry present only when something was read.
     */
    method OpenData(table: Table, newId: LineId, ln: real -> real, exp: real -> real) returns (ok: bool)
      requires Valid() && Rectangular(table)
      modifies this`resultsData, this`peaks, this`integrations, this`mecozziFits
      ensures Valid()
      ensures ok <==> Load(table, old(lineColor), ln, exp).Some?
      ensures !ok ==> unchanged(this)
      ensures ok ==>
                var l := Load(table, lineColor, ln, exp).value;
                resultsData == map[newId := l.line] &&
                peaks == (if l.peaks.Some? then map[newId := l.peaks.value] else map[]) &&
                integrations == (if l.integrations != [] then map[newId := l.integrations] else map[]) &&
                mecozziFits == (if l.fits != [] then map[newId := l.fits] else map[]) &&
                Current() == Some(l)
    {
      var loaded := Load(table, lineColor, ln, exp);
      if loaded.None? {
        return false;
      }
      Install(newId, loaded.value);
      ok := true;
    }

    /** The state a loaded table leaves: one line, and an entry for each part that is not empty. */
    method Install(newId: LineId, l: Loaded)
      modifies this`resultsData, this`peaks, this`integrations, this`mecozziFits
      ensures Valid()
      ensures resultsData == map[newId := l.line]
      ensures peaks == (if l.peaks.Some? then map[newId := l.peaks.value] else map[])
      ensures integrations == (if l.integrations != [] then map[newId := l.integrations] else map[])
      ensures mecozziFits == (if l.fits != [] then map[newId := l.fits] else map[])
      ensures Current() == Some(l)
    {
      resultsData := map[newId := l.line];
      peaks := map[];
      integrations := map[];
      mecozziFits := map[];
      if l.peaks.Some? {
        peaks := peaks[newId := l.peaks.value];
      }
      if l.integrations != [] {
        integrations := integrations[newId := l.integrations];
      }
      if l.fits != [] {
        mecozziFits := mecozziFits[newId := l.fits];
      }
    }
  }
}
