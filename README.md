# nTLCanalyzer chromatogram core, in Dafny

nTLCanalyzer analyses images of thin-layer chromatography plates. The user draws a path across a band image. The band of pixels across the path is sampled into an intensity profile (the chromatogram). That profile is then:

- filtered (inversion, Savitzky-Golay, Gaussian smoothing);
- searched for peaks;
- integrated, automatically around each peak or manually between two picked positions;
- fitted with the Mecozzi asymmetric peak model;
- saved to a table of columns and opened again.

This project models that numeric core and the analysis state a chromatogram tab keeps. It proves properties of both.

Modules, one per source file:

| file | models |
|---|---|
| `wrappers.dfy` | `Option` and `Result`, for the paths on which the source raises |
| `arrays.dfy` | the numpy vocabulary the code uses: `linspace`, `argmin` of distances, `min`/`max`/`mean`, slicing |
| `utils.dfy` | `calculate_area` (composite trapezoid rule), the `COLORS` table, `get_color_for_line` |
| `themes.dfy` | `AVAILABLE_THEMES`, `LIGHT_THEMES`, `DARK_THEMES`, `DEFAULT_THEME`, `get_theme_style` |
| `integration.py` → `integration.dfy` | `find_integration_bounds`, with its four loops as a method proved against recursive walk functions; `manual_integration`; `integrate_fitted_peak` |
| `peak_analysis.dfy` | the filter guards, `detect_peaks`, `auto_integrate_peaks` (the loop and its inner walks) and `calculate_integration_area` |
| `image_processing.dfy` | `extract_profile` and `sample_band` (the per-segment loop over band offsets, then resampling) |
| `fitting.dfy` | `mecozzi_f`, `mecozzi_a` (a zero array written in place above the cutoff), `fit_mecozzi_to_peak` |
| `chromatogram_columns.dfy` | the columns `save_data` writes and the way `open_data` reads them back, with the round-trip lemmas |
| `chromatogram_tab.dfy` | the tab as a class: its `results_data`, `peaks`, `integrations` and `mecozzi_fits` dictionaries and the methods that change them |

Library code is a function-typed parameter of the operations that call it. This covers:

- SciPy's `savgol_filter`, `gaussian_filter1d`, `find_peaks` and `curve_fit`;
- `np.log` and `np.exp`;
- `np.sqrt`;
- `int(round(.))`;
- `np.interp` on path coordinates.

Whenever such a call can raise, it returns an `Option`. A lemma that needs a fact about one of these functions (ln 1 = 0, exp 0 = 1, sqrt 0 = 0) takes the fact as a precondition. Intensities and distances are `real`.

The two end conventions of the source are kept apart:

- `manual_integration` integrates the inclusive range `[start, end]`.
- `calculate_integration_area`, `on_chrom_release` and `save_data` integrate the exclusive slice `[start, end)`, while their baseline still ends at `y[end]`.

`PeakAnalysis.ConventionsDiffer` gives an input on which the two conventions disagree.

## Model

| member | source | states |
|---|---|---|
| Utils.TrapezoidShort | src/utils.py:92-103 | fewer than two samples enclose area 0 |
| Utils.TrapezoidZero | src/utils.py:92-103 | an all-zero curve has area exactly 0, whatever the sample positions |
| Utils.TrapezoidSub | src/utils.py:92-103 | the rule is additive in y: the area of y − b is area(y) − area(b), so baseline-subtracted areas are differences of two areas |
| Utils.TrapezoidNegate | src/utils.py:92-103 | negating the curve negates the area, so signed areas can be negative |
| Utils.TrapezoidConstant | src/utils.py:92-103 | a constant curve c has area c · (x_last − x_first) |
| Utils.PalettesShape | src/utils.py:14-44 | `COLORS` has exactly the styles light and dark; each has five secondary colours, none equal to its primary colour |
| Utils.ColorForLine | src/utils.py:114-128 | a colour is returned exactly when the style is a key of `COLORS`; any other style raises `KeyError` |
| Utils.FirstLineIsPrimary | src/utils.py:125-126 | line 0 is drawn in the style's primary colour |
| Utils.OtherLinesCycleSecondary | src/utils.py:127-128 | every other index gets a secondary colour, never the primary one; from index 1 on, the choice repeats with period 5 |
| Themes.ThemeStyle | src/themes.py:37-48 | the style is 'dark' exactly for names in `DARK_THEMES`, and 'light' for every other name, unknown names included |
| Themes.DefaultThemeIsDark | src/themes.py:31-35 | `DEFAULT_THEME` is an available theme and is classified dark |
| Themes.CategoriesDisjoint | src/themes.py:34-35 | no theme is both light and dark |
| Themes.CategoriesCoverAvailable | src/themes.py:9-35 | the light and dark lists together are exactly the keys of `AVAILABLE_THEMES` |
| Themes.StyleAlwaysHasPalette | src/themes.py:46-48 | every style `get_theme_style` returns has a palette, so a line colour never fails for it |
| Arrays.Linspace | src/integration.py:80 | `np.linspace` gives n points, the first being start and the last stop |
| Arrays.LinspaceMonotone | src/image_processing.py:101 | the points of an ascending `linspace` lie between its ends and in order |
| Arrays.LinspaceIsStrictlyIncreasing | src/image_processing.py:101 | a `linspace` between distinct ascending ends is strictly increasing throughout |
| Arrays.NearestIndex | src/integration.py:68-69 | `argmin(abs(x − t))` is an index whose distance to t is minimal, and no earlier index is as close |
| Arrays.NearestIndexOfMember | src/chromatogram_tab.py:1066-1067 | looking up a value that occurs once finds exactly its index |
| Arrays.MeanBounds | src/image_processing.py:164-165 | a mean lies between any lower and upper bound of the averaged values |
| Integration.WalkLeftAboveStops | src/integration.py:31-33 | the first left walk stops at index 0 or at a value ≤ the threshold, passing only values above it |
| Integration.WalkLeftFlatStops | src/integration.py:36-37 | the second left walk stops at 0 or before a step ≥ sensitivity · peak, passing only smaller steps |
| Integration.WalkRightAboveStops | src/integration.py:40-42 | the first right walk stops at len − 1 or at a value ≤ the threshold, passing only values above it |
| Integration.WalkRightFlatStops | src/integration.py:45-46 | the second right walk stops at len − 1 or before a step ≥ sensitivity · peak, passing only smaller steps |
| Integration.WalkedBounds | src/integration.py:25-46 | the walked bounds satisfy left ≤ peak ≤ right < len |
| Integration.WalkedBoundsStop | src/integration.py:28-46 | before padding, the threshold walks end at an edge or at a value ≤ the threshold, and the flat walks only extend them outward to an edge or to a step ≥ the tolerance |
| Integration.IntegrationBounds | src/integration.py:49-52 | the returned bounds are the walked bounds moved 3 outward and clamped to [0, len − 1], and still satisfy left ≤ peak ≤ right |
| Integration.FindIntegrationBounds | src/integration.py:25-52 | it fails (`IndexError`) exactly when the peak index is past the trace; otherwise the four while loops and the padding return 0 ≤ left ≤ peak ≤ right ≤ len − 1, equal to `IntegrationBounds` |
| Integration.InclusiveBaselineMeetsEnds | src/integration.py:76-80 | the manual-integration baseline equals y at both inclusive end samples |
| Integration.InclusiveAreaOfChordIsZero | src/integration.py:76-83 | a region whose samples lie on the chord between its end samples has area 0 |
| Integration.InclusiveAreaOfConstantIsZero | src/integration.py:76-83 | a region over which y is constant has area 0 |
| Integration.InclusiveAreaIsDifference | src/integration.py:80-83 | the manual area is the area under the curve minus the area under the baseline |
| Integration.ManualIntegration | src/integration.py:54-85 | it fails exactly when x is empty (`argmin` raises) or a picked index is past y (`IndexError`); the two arrays may differ in length otherwise; on success start ≤ end lies in both arrays, the pair is the two targets' nearest indices in order, and the area is the inclusive baseline-subtracted area |
| Integration.ManualIntegrationSymmetric | src/integration.py:68-73 | picking the two targets in either order gives the same result |
| Integration.ManualIntegrationSamePoint | src/integration.py:68-83 | when both targets pick the same sample, a successful integration has area 0 |
| Integration.IntegrateFittedPeakMatchesFit | src/integration.py:87-97 | integrating a fresh fit reproduces the area the fit recorded |
| PeakAnalysis.OddWindow | src/peak_analysis.py:26-27 | the window becomes odd, at most one larger, and an odd window is kept |
| PeakAnalysis.ApplySavitzkyGolay | src/peak_analysis.py:25-33 | data no longer than the odd window come back unchanged; longer data go through the filter with an odd window below their length |
| PeakAnalysis.ApplyGaussianSmooth | src/peak_analysis.py:46-49 | sigma ≤ 0 returns the data unchanged; a positive sigma runs the filter |
| PeakAnalysis.AbsHeight | src/peak_analysis.py:75 | for a threshold in [0, 1] the absolute height lies in [min, max], reaching min at 0 and max at 1 |
| PeakAnalysis.AdaptiveProminence | src/peak_analysis.py:78 | the prominence is scaled to prominence · range / 100 for a positive range, and kept otherwise |
| PeakAnalysis.FlatIffNoRange | src/peak_analysis.py:70-72 | a non-empty trace has range 0 exactly when all its values are equal |
| PeakAnalysis.DetectPeaks | src/peak_analysis.py:65-89 | empty or flat data give no peaks; otherwise `find_peaks` is called with the absolute height and the scaled prominence |
| PeakAnalysis.AutoIntegratePeaks | src/peak_analysis.py:105-138 | it fails (`IndexError`) exactly when some peak index is past the trace; otherwise exactly one (left, right) per peak, in peak order, each with left ≤ peak ≤ right < len and equal to what `find_integration_bounds` returns for that peak |
| PeakAnalysis.IntegratePeak | src/peak_analysis.py:108-136 | one pass of the loop fails exactly for a peak index past the trace, and otherwise computes the same bounds as `find_integration_bounds` |
| PeakAnalysis.CalculateIntegrationArea | src/peak_analysis.py:153-163 | it raises exactly when start or end is past the intensities, or when a non-empty region ends past the distances so that the two slices differ in length; otherwise it is the end-exclusive area |
| PeakAnalysis.ExclusiveAreaOfEmptyRegion | src/peak_analysis.py:154-161 | start ≥ end, or a one-sample slice, gives area 0 |
| PeakAnalysis.ExclusiveBaselineEnds | src/peak_analysis.py:154-158 | the exclusive baseline starts at y[start] but ends at y[end], under sample end − 1 |
| PeakAnalysis.ExclusiveMatchesInclusiveOnFlatEnd | src/peak_analysis.py:154-161 | when y[end − 1] = y[end], the exclusive area equals the inclusive area of [start, end − 1] |
| PeakAnalysis.ConventionsDiffer | src/peak_analysis.py:154-161 | on x = [0, 1, 2], y = [0, 1, 0] between 0 and 2, the exclusive area is 0.5 and the inclusive one 1.0 |
| ImageProcessing.OffsetRange | src/image_processing.py:147 | `range(-bw//2, bw//2 + 1)` has bw + 1 offsets, centred for even bw and running from −(bw+1)/2 to (bw−1)/2 for odd bw |
| ImageProcessing.SegmentValue | src/image_processing.py:137-167 | a segment contributes a value exactly when its length is positive |
| ImageProcessing.SegmentValueBetween | src/image_processing.py:163-167 | a segment with no pixel in bounds contributes 0; otherwise its value lies between the smallest and largest retained pixel |
| ImageProcessing.SampleSegment | src/image_processing.py:128-167 | the loop over offsets keeps only in-bounds pixels (channel mean for colour) and averages them into `SegmentValue` |
| ImageProcessing.RawValuesEmptyIffAllDegenerate | src/image_processing.py:137-138 | there are no raw values exactly when every segment has length 0 |
| ImageProcessing.InterpAtIndex | src/image_processing.py:171-172 | interpolation at an index stays within the raw values' min and max |
| ImageProcessing.InterpAtKnot | src/image_processing.py:171-172 | at a whole index, interpolation returns that sample |
| ImageProcessing.Resample | src/image_processing.py:170-172 | resampling gives the requested number of values, all within the raw min and max |
| ImageProcessing.ResampleEnds | src/image_processing.py:170-172 | the resampled series starts at the first raw value and ends at the last |
| ImageProcessing.SampleBand | src/image_processing.py:114-174 | the segment loop followed by resampling computes `SampleBandSpec` |
| ImageProcessing.SampleBandShape | src/image_processing.py:170-174 | the band has one value per point, or none exactly when every segment is degenerate; its ends are the first and last raw values and all values lie within their range |
| ImageProcessing.CumulativeDistancesSteps | src/image_processing.py:94-97 | the cumulative distance starts at 0, grows by one segment length per point and ends at the total length |
| ImageProcessing.CumulativeDistancesMonotone | src/image_processing.py:96 | with non-negative lengths the cumulative distance never decreases |
| ImageProcessing.Trunc | src/image_processing.py:100 | `int()` truncates toward zero |
| ImageProcessing.NumSamples | src/image_processing.py:100 | the sample count lies in [500, 1000] and is `int(total / 2)` when that value is in range |
| ImageProcessing.ExtractProfile | src/image_processing.py:77-112 | it fails exactly for an empty path; otherwise there are 500 to 1000 distances, running from 0 to the total path length, and as many intensities as distances, or none |
| ImageProcessing.ZeroLengthPath | src/image_processing.py:94-112 | a path of total length 0 gives 500 zero distances and no intensities |
| ImageProcessing.PositiveLengthPathIncreases | src/image_processing.py:94-112 | a path of positive total length gives strictly increasing distances |
| Fitting.MecozziA | src/fitting.py:54-58 | the result has the length of x, is 0 below the cutoff, and equals `mecozzi_f` at and above it |
| Fitting.MecozziAtCenter | src/fitting.py:29-33 | at x = center `mecozzi_f` returns the height (given ln 1 = 0 and exp 0 = 1) |
| Fitting.MecozziACenterIsHeight | src/fitting.py:54-57 | for 0 < asym < 2 and hwhm > 0 the centre lies above the cutoff, so `mecozzi_a` also gives the height there |
| Fitting.CutoffGuardsLogDomain | src/fitting.py:55 | for 0 < asym < 2 and hwhm > 0, every x the cutoff keeps has 1 + u ≥ 0 |
| Fitting.CutoffInvertedAboveTwo | src/fitting.py:55 | for asym > 2, which the fit bounds allow, every kept x has 1 + u ≤ 0 |
| Fitting.FitWindow | src/fitting.py:73-75 | start = max(0, peak − 50) and end = min(len − 1, peak + 50), with start ≤ peak ≤ end and at most 100 apart |
| Fitting.FitWindowNonEmpty | src/fitting.py:74-78 | with at least two samples, start < end |
| Fitting.Segment | src/fitting.py:77-78 | the segment is the end-exclusive slice [start, end) |
| Fitting.YSegment | src/fitting.py:77-78 | the y segment is cut with the window of x and clamped to y: it equals `Segment` when the lengths agree, is non-empty exactly when x has two samples or more (for a peak inside y), and holds y[peak] while the peak is not the last sample of x |
| Fitting.FitMecozziToPeak | src/fitting.py:60-109 | it fails exactly when the peak index is past x or past y, when x has one sample, or when `curve_fit` fails; x and y may differ in length otherwise; on success the record carries the peak index and the fitted parameters, 500 x values from x_seg[0] to x_seg[−1], the model on them and its trapezoid area |
| Fitting.LastPeakOutsideWindow | src/fitting.py:75-92 | for the last sample of x, the segment excludes the peak, so the initial centre exceeds the upper centre bound |
| Fitting.InitialCenterFeasible | src/fitting.py:82-92 | on an increasing axis, the initial centre lies within the centre bounds exactly when the peak is not the last sample |
| Fitting.InitialHeightNonNegative | src/fitting.py:77-81 | for a peak inside y and before the last sample of x, the y segment is non-empty and the initial height is ≥ 0 |
| ChromatogramColumns.Marker | src/chromatogram_tab.py:953-955 | the `Peaks` column holds the filtered value at each peak index and 0 elsewhere |
| ChromatogramColumns.Mask | src/chromatogram_tab.py:969-971 | the integration column is 1 on [start, end) and 0 elsewhere |
| ChromatogramColumns.PositiveIndices | src/chromatogram_tab.py:1049 | `np.where(v > 0)` lists exactly the positive entries, in increasing order |
| ChromatogramColumns.SaveTable | src/chromatogram_tab.py:939-1008 | saving fails exactly when the arrays differ in length or a peak or integration index is past them; otherwise the table is rectangular with one row per distance |
| ChromatogramColumns.Load | src/chromatogram_tab.py:1022-1117 | opening fails exactly without a `Distance` or `Filtered_Intensity` column; the line is read from them; a peak entry is non-empty and increasing; a table without rows yields no integrations or fits |
| ChromatogramColumns.ReloadedFit | src/chromatogram_tab.py:1104-1117 | a re-read fit has no peak index, the stored parameters and area, and 500 x values from c − 5w to c + 5w |
| ChromatogramColumns.SavedLayout | src/chromatogram_tab.py:941-997 | a saved table is its profile, peak, integration and fit columns, in that order |
| ChromatogramColumns.SavedProfile | src/chromatogram_tab.py:946-948 | the distance, raw and filtered columns hold the line's arrays |
| ChromatogramColumns.SavedMarker | src/chromatogram_tab.py:951-955 | a saved table has a `Peaks` column exactly when the line had a peak entry |
| ChromatogramColumns.MarkerPositiveIndices | src/chromatogram_tab.py:953-955 | the positive entries of the marker column are the peaks whose filtered value is positive |
| ChromatogramColumns.LoadedPeaks | src/chromatogram_tab.py:1048-1051 | the peaks read are the positive entries of the marker column, if there is one |
| ChromatogramColumns.IntegrationColumnsLookup | src/chromatogram_tab.py:966-975 | integration k's start and end columns hold d[start] and d[end] |
| ChromatogramColumns.LoadIntegrationColumns | src/chromatogram_tab.py:1054-1072 | with strictly increasing distances, reading the integration columns gives back the saved pairs, in order |
| ChromatogramColumns.FitColumnsLookup | src/chromatogram_tab.py:985-997 | each parameter column of fit k holds that parameter |
| ChromatogramColumns.LoadFitColumns | src/chromatogram_tab.py:1075-1117 | reading the fit columns gives back every saved fit, rebuilt |
| ChromatogramColumns.LoadedSavable | src/chromatogram_tab.py:1033-1072 | what opening reads can be saved again: equal lengths, and peaks and integrations that address the arrays |
| ChromatogramColumns.SaveLoadLine | src/chromatogram_tab.py:1033-1040 | saving and opening gives the line back |
| ChromatogramColumns.SaveLoadPeakMembers | src/chromatogram_tab.py:1048-1051 | the peaks read back are exactly the saved peaks whose filtered value is positive; a saved peak at a value ≤ 0 is lost |
| ChromatogramColumns.SaveLoadPeaks | src/chromatogram_tab.py:953-955 | increasing peaks whose filtered values are all positive come back unchanged |
| ChromatogramColumns.SaveLoadIntegrations | src/chromatogram_tab.py:1062-1072 | with strictly increasing distances, the integrations come back unchanged |
| ChromatogramColumns.SaveLoadIntegrationsEvenDistances | src/chromatogram_tab.py:1062-1072 | for distances evenly spaced from 0 to a positive length, as an extracted profile has, the integrations come back unchanged |
| ChromatogramColumns.SaveLoadFits | src/chromatogram_tab.py:1075-1117 | fits come back with the same parameters and areas; the peak index is lost and the curve is rebuilt around the centre |
| ChromatogramColumns.SaveLoadEmptyLine | src/chromatogram_tab.py:1062-1063 | a table without rows keeps the line but loses its integrations and fits |
| ChromatogramTab.Inverted | src/chromatogram_tab.py:379-380 | `max(raw) − raw` is non-negative and 0 exactly at the maxima |
| ChromatogramTab.FilterLineFails | src/chromatogram_tab.py:375-392 | filtering fails exactly when an empty trace is inverted, or when the Savitzky-Golay filter raises on a trace longer than the odd window |
| ChromatogramTab.FilterLineKeepsLength | src/chromatogram_tab.py:375-396 | when both library filters keep the length of their input, the filtered trace is as long as the raw one |
| ChromatogramTab.FilterLinePassThrough | src/chromatogram_tab.py:379-396 | when neither filter stage applies, the result is the raw trace or its inversion, which is ≥ 0 and 0 at the raw maximum |
| ChromatogramTab.SelectionBounds | src/chromatogram_tab.py:609-615 | the selection is the two nearest samples, in order |
| ChromatogramTab.SuccessesAppend | src/chromatogram_tab.py:883-893 | successes over consecutive runs of attempts concatenate, so one failure does not stop the rest |
| ChromatogramTab.SuccessesMembers | src/chromatogram_tab.py:883-890 | every kept record is the record of a successful attempt |
| ChromatogramTab.SuccessesCount | src/chromatogram_tab.py:882-891 | the number kept is the number of successful attempts |
| ChromatogramTab.AllSucceed | src/chromatogram_tab.py:883-891 | when every attempt succeeds, all records are kept, in order |
| ChromatogramTab.SuccessfulFitsOfPeaks | src/chromatogram_tab.py:883-890 | each kept fit is the successful fit of one of the peaks and records that peak |
| ChromatogramTab.AllPeaksFitted | src/chromatogram_tab.py:883-891 | when every fit succeeds there is one fit per peak, in peak order |
| ChromatogramTab.FitEach | src/chromatogram_tab.py:881-893 | the loop keeps the successful fits in peak order and counts them |
| ChromatogramTab.ChromatogramTab.constructor | src/chromatogram_tab.py:52-58 | a new tab has no line, peaks, integrations or fits, and the grey line colour |
| ChromatogramTab.ChromatogramTab.ApplyFilters | src/chromatogram_tab.py:360-407 | without a line, or when filtering fails, nothing changes; otherwise the filtered trace is replaced and peaks, integrations and fits are cleared, unless redrawing raises first |
| ChromatogramTab.ChromatogramTab.ClearPeaks | src/chromatogram_tab.py:752-756 | only the peaks are emptied |
| ChromatogramTab.ChromatogramTab.ClearIntegrations | src/chromatogram_tab.py:784-788 | only the integrations are emptied |
| ChromatogramTab.ChromatogramTab.EnableManualIntegration | src/chromatogram_tab.py:758-773 | manual mode is on |
| ChromatogramTab.ChromatogramTab.DisableManualIntegration | src/chromatogram_tab.py:775-782 | manual mode is off |
| ChromatogramTab.ChromatogramTab.FitAllPeaks | src/chromatogram_tab.py:864-899 | without a line or any peaks nothing changes; otherwise the fits are cleared and, when the line has a non-empty peak list, become the successful fits of its peaks in peak order, with the count equal to their number |
| ChromatogramTab.ChromatogramTab.OnChromClick | src/chromatogram_tab.py:578-588 | a press on the chart with a line shown starts a selection at that x |
| ChromatogramTab.ChromatogramTab.OnChromRelease | src/chromatogram_tab.py:590-637 | a release on the chart ending a selection over a line with data takes the nearest samples to both ends, in order; in manual mode that pair is appended to the line's integrations, earlier ones kept, and the selection is reset unless the end index or the redraw raises; outside manual mode only the selection is reset |
| ChromatogramTab.ChromatogramTab.SaveData | src/chromatogram_tab.py:923-1008 | the tab's line and analysis are written as `SaveTable` writes them; there is nothing to save without a line |
| ChromatogramTab.ChromatogramTab.OpenData | src/chromatogram_tab.py:1010-1129 | a table without the required columns changes nothing; otherwise the tab holds exactly what `Load` reads, under a new id |
| ChromatogramTab.ChromatogramTab.Install | src/chromatogram_tab.py:1031-1117 | one line; a peak, integration or fit entry only when something was read |

## Left out

- Floating point: NaN, infinities and rounding are not modelled. Where numpy divides by zero in the Mecozzi model (hwhm · (4 − asym²) = 0 or asym = 0 in the cutoff), the quotient is taken as 0 (`Fitting.Quot`).
- `Fitting.MecozziF`: a NaN from `np.log` of a negative argument is not represented. The logarithm is a total parameter. `Fitting.CutoffGuardsLogDomain` shows that the cutoff keeps its argument non-negative for 0 < asym < 2.
- Library internals are parameters, not definitions: the Savitzky-Golay filter, the Gaussian filter, `find_peaks`, `curve_fit`, ln, exp, sqrt, `int(round(.))` and `np.interp` on coordinates.
- `Utils.TrapezoidNegate`: linearity of `calculate_area` is proved for subtraction and negation only, not for scaling by an arbitrary factor.
- CSV text: header strings such as `Integration_2_Start` are a datatype, not parsed text. Number formatting and reading a file back as text are not modelled. A table is a sequence of named columns, and `open_data` sees the columns in the order `save_data` wrote them.
- I/O and UI: file dialogs, message boxes, status text, plotting, cursor annotation and all widgets are left out. `update_chromatogram_display` appears only as the conditions under which it raises (`ChromatogramTab.DisplayFails`).
- `load_image`, `load_image_from_clipboard`, `adjust_image`, `set_image_data`, `extract_and_analyze`, the tab's `detect_peaks`, `fit_peak`, `fit_mecozzi`, `on_peak_select`, `integrate_fitted_peaks` and `update_results_text` (apart from the cases in which it raises, folded into `ChromatogramTab.DisplayFails`) are outside the modelled core.
- The image, comparison and application modules, and the launcher, are outside the modelled core.
- `on_chrom_motion`: the hover rectangle and the area it displays (end-inclusive, the convention of `Integration.InclusiveArea`) are display only. `on_peak_key` is display only too.
- `ChromatogramTab.ChromatogramTab.OnChromRelease`: the area it computes is only shown, never stored. The model keeps only the `IndexError` that reading `filtered[end_idx]` can raise.
- `ChromatogramTab.DisplayFails`: this abstracts the redraw to the conditions under which it raises. For a line with data these are arrays of unequal length, a peak past them, or an integration that is empty or ends past the filtered values. For a line with an empty array, the plot is skipped, but `update_results_text` still raises on any peak or integration. Its drawing and text are not modelled.
- `ChromatogramTab.DisplayFails` and `ChromatogramColumns.SaveTable`: for empty or flat data `detect_peaks` returns an empty float array. The tab stores it as the peak entry, and numpy refuses it as an index array, so the redraw and `save_data` raise on it. Peaks are `seq<nat>` here, so that entry is indistinguishable from an empty integer index array. The model's redraw and save do not fail on it, and the model does not keep the state that the source's raising leaves. The tab's `detect_peaks`, which is the only producer of that entry, is outside the modelled core.
- `generate_unique_id`: the fresh id is a parameter of `OpenData`.
- `PeakAnalysis.CalculateIntegrationArea`: when the x slice has length 1 and the y slice is longer (or the reverse), numpy broadcasts the subtraction instead of raising. The model counts every length mismatch as a failure.
- `ChromatogramTab.ChromatogramTab.FitAllPeaks`: it builds the new fit list locally and stores it once. The source appends to the stored list as it goes; the final state is the same.
- `ChromatogramTab.ChromatogramTab.ApplyFilters`: the source loops over every entry of `results_data`. The model relies on the invariant that there is at most one entry (`Valid`), which the comment at src/chromatogram_tab.py:374 states.
- The model follows the code as written:
  - The sample count uses `int()`, which truncates.
  - The band has bw + 1 offsets, which are skewed for odd widths.
  - A zero-length segment contributes no value at all.
  - A path of total length 0 gives 500 zero distances and no intensities. Only an empty path raises.
