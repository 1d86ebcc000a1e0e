# AliceVision structure-from-motion statistics, modelled in Dafny

This project models the statistics routines of AliceVision's
`src/aliceVision/sfm/sfmStatistics.cpp`. These routines read a
reconstruction (`SfMData`): its views, and its landmarks, each holding at
most one observation per view. From it they compute:

- residual and detection-scale samples, one per observation whose view is
  in a filter set (or one per observation when the filter is empty),
  summarised in a `BoxStats` and an optional `Histogram`;
- track lengths (the number of observations of a landmark), recorded for
  every landmark that has at least one observation in the filter, together
  with a running observation counter owned by the caller;
- the number of landmarks observed in each view, counted in a
  `std::map` and emitted in ascending view id;
- per-view rows of residual and track-length statistics, appended to six
  caller-owned vectors;
- per-view feature and track counts, from results that are already loaded.

The routines are imperative: they reset their outputs, fill them with
`push_back` in nested loops, bump a map counter in place and update
counters passed by reference. The model keeps those loops as Dafny methods
with loop invariants. Each method is proved against a specification
function of the landmarks, and the properties the source promises are
proved as lemmas about those functions.

Files:

- `keys.dfy` (module `Keys`): ascending iteration over the keys of an
  ordered map (`Ascending`), the order in which both the observation maps
  and the `std::map` counter are visited.
- `summary.dfy` (module `Summary`): the `BoxStats` and `Histogram` records,
  their default values and `StatsOf`, the statistics a routine leaves in
  its output.
- `reconstruction.dfy` (module `Reconstruction`): views, landmarks,
  observations, the observed views and the observation counts.
- `selection.dfy` (module `Selection`): what each routine selects, as
  functions of the landmarks, and the lemmas that relate them.
- `sfm_statistics.dfy` (module `SfmStatistics`): the routines themselves.

Conventions of the model:

- The landmark map is a sequence, visited in order. Each observation map
  is a `map<ViewId, Observation>`, visited in ascending view id.
- The residual of an observation is camera geometry. It is a parameter
  `residualOf` of type `(Landmark, ViewId, Observation) -> real`.
- A `Histogram<double>*` that may be null becomes a flag `withHistogram`.
  The histogram result is `None` when the flag is false.
- Arguments passed by reference (`overallNbObservations`, `nbViews`, the
  six per-view vectors, `out_featPerView`, `out_matchPerView`) are taken
  in and returned updated. The six per-view vectors form one `Columns`
  record.
- The median and quartiles of `BoxStats` come from a caller-supplied
  `QuartileRule`. Count, minimum, maximum and mean have their usual
  meaning.

## Model

| member | source | states |
|---|---|---|
| Keys.Ascending | src/aliceVision/sfm/sfmStatistics.cpp:194-196 | the keys of a map, each key exactly once, as the map visits them |
| Keys.AscendingIncreasing | src/aliceVision/sfm/sfmStatistics.cpp:194-196 | the visit order is strictly ascending, so no view id is visited twice |
| Summary.Summarize | src/aliceVision/sfm/sfmStatistics.cpp:60 | BoxStats over non-empty samples counts them; its min and max are samples that bound all of them |
| Summary.StatsOf | src/aliceVision/sfm/sfmStatistics.cpp:23 | the statistics left in the output are the default record exactly when no sample survived; otherwise they summarise the samples |
| Summary.Ceil | src/aliceVision/sfm/sfmStatistics.cpp:64 | std::ceil: the least integer not below its argument |
| Reconstruction.ObservedViews | src/aliceVision/sfm/sfmStatistics.cpp:139-150 | a view is observed exactly when some landmark has an observation in it |
| Selection.ElemsIn | src/aliceVision/sfm/sfmStatistics.cpp:93-99 | the filter views the observation loop meets are exactly the keys both in the sequence and in the filter |
| Selection.HitsDistinct | src/aliceVision/sfm/sfmStatistics.cpp:93-99 | over distinct view ids, the number of hits equals the number of distinct views hit |
| Selection.HitsPositive | src/aliceVision/sfm/sfmStatistics.cpp:100 | the hit count is positive exactly when some view of the sequence is in the filter |
| Selection.ViewSamples | src/aliceVision/sfm/sfmStatistics.cpp:313 | the samples of one view number exactly the landmarks observed in it |
| Selection.KeySamplesCount | src/aliceVision/sfm/sfmStatistics.cpp:39-52 | the samples taken from one landmark's observations number its observations in the filter |
| Selection.LandmarkSamplesCount | src/aliceVision/sfm/sfmStatistics.cpp:39-52 | one sample per selected observation of a landmark, none twice |
| Selection.ObservationSamplesCount | src/aliceVision/sfm/sfmStatistics.cpp:36-53 | the sample sequence has one entry per observation the filter keeps, over all landmarks |
| Selection.UnfilteredSelectedCount | src/aliceVision/sfm/sfmStatistics.cpp:41-45 | with an empty filter every observation is selected |
| Selection.UnfilteredSamplesCount | src/aliceVision/sfm/sfmStatistics.cpp:269-283 | with an empty filter there is one sample per observation |
| Selection.NothingSelected | src/aliceVision/sfm/sfmStatistics.cpp:41-45 | no observation is selected exactly when every landmark's selection is empty |
| Selection.NoSamplesIffNothingSelected | src/aliceVision/sfm/sfmStatistics.cpp:57-58 | the routine returns with defaults exactly when no observation of any landmark is in the filter |
| Selection.KeySamplesSingleView | src/aliceVision/sfm/sfmStatistics.cpp:41-45 | filtered to one view, a landmark yields that view's sample if it is observed there, nothing otherwise |
| Selection.SingleViewSamples | src/aliceVision/sfm/sfmStatistics.cpp:313 | filtered to one view, the samples are one per landmark observed in that view, in landmark order |
| Selection.TrackLengths | src/aliceVision/sfm/sfmStatistics.cpp:87-108 | at most one length per landmark; with a non-empty filter every recorded length is at least 1 |
| Selection.ViewTrackLengths | src/aliceVision/sfm/sfmStatistics.cpp:340 | one length per landmark observed in the view, each at least 1 |
| Selection.UnfilteredTrackLengths | src/aliceVision/sfm/sfmStatistics.cpp:105-108 | with an empty filter every landmark is recorded at its full length, in order |
| Selection.SingleViewTrackLengths | src/aliceVision/sfm/sfmStatistics.cpp:90-103 | filtered to one view, the recorded lengths are the FULL lengths of the landmarks observed in that view |
| Selection.ParticipationIsSampled | src/aliceVision/sfm/sfmStatistics.cpp:90-103 | for a non-empty filter, a landmark is recorded exactly when one of its observations is in the filter |
| Selection.UnfilteredTrackLengthsSum | src/aliceVision/sfm/sfmStatistics.cpp:107-109 | unfiltered, the recorded lengths add up to the number of observations |
| Selection.Counts | src/aliceVision/sfm/sfmStatistics.cpp:194-196 | one entry per view, in the given order: the number of landmarks observed in it |
| Selection.LandmarksPerView | src/aliceVision/sfm/sfmStatistics.cpp:170-197 | one entry per observed view, each at least 1 |
| Selection.CountsStep | src/aliceVision/sfm/sfmStatistics.cpp:185-189 | one more landmark adds to the counts one for each of its views |
| Selection.CountsTotal | src/aliceVision/sfm/sfmStatistics.cpp:180-190 | counts over distinct views covering every observed view add up to the number of observations |
| Selection.CountsOfNothing | src/aliceVision/sfm/sfmStatistics.cpp:176-177 | without landmarks every count is zero |
| Selection.HitsCovered | src/aliceVision/sfm/sfmStatistics.cpp:185-189 | every view of a landmark is found once among distinct view ids that cover it |
| Selection.LandmarksPerViewTotal | src/aliceVision/sfm/sfmStatistics.cpp:180-196 | the per-view landmark counts add up to the total number of observations |
| Selection.PerViewCountsAgree | src/aliceVision/sfm/sfmStatistics.cpp:313 | for each observed view, its residual samples, its track lengths and its landmark count agree in number |
| SfmStatistics.TrackLengthHistogramLayout | src/aliceVision/sfm/sfmStatistics.cpp:117-121 | the track-length histogram spans [min, max + 1) with one unit bin per integer length, and receives every recorded length inside its range |
| SfmStatistics.UnitBins | src/aliceVision/sfm/sfmStatistics.cpp:119 | between two recorded lengths lies a whole, positive number of unit bins |
| SfmStatistics.CollectLandmarkSamples | src/aliceVision/sfm/sfmStatistics.cpp:39-52 | the inner loop pushes exactly the landmark's samples in the filter, in view order |
| SfmStatistics.CollectObservationSamples | src/aliceVision/sfm/sfmStatistics.cpp:36-53 | the nested loops push the selected samples in landmark-then-view order |
| SfmStatistics.ComputeResidualsHistogram | src/aliceVision/sfm/sfmStatistics.cpp:19-67 | outputs reset first; defaults when there are no landmarks or no selected residual; otherwise the residual statistics and the histogram over [0, ceil(max)) with 2 ceil(max) bins holding every residual |
| SfmStatistics.ComputeScaleHistogram | src/aliceVision/sfm/sfmStatistics.cpp:253-299 | as for residuals, with the detection scale and the histogram over [0, ceil(max)) with ceil(max) + 1 bins |
| SfmStatistics.CountObservationsInViews | src/aliceVision/sfm/sfmStatistics.cpp:92-99 | the counter equals the number of the landmark's views in the filter, and is positive exactly when one of them is |
| SfmStatistics.ObservationsInViews | src/aliceVision/sfm/sfmStatistics.cpp:92-100 | the hit count of a landmark's views is the size of its views within the filter |
| SfmStatistics.ComputeObservationsLengthsHistogram | src/aliceVision/sfm/sfmStatistics.cpp:70-122 | outputs reset first; the caller's observation counter grows by every landmark's count whatever the filter; the statistics and histogram are those of the recorded track lengths |
| SfmStatistics.TallyBumps | src/aliceVision/sfm/sfmStatistics.cpp:183-190 | counting distinct views adds one to each, inserting missing views at 1 |
| SfmStatistics.CoverageCounts | src/aliceVision/sfm/sfmStatistics.cpp:180-190 | after all landmarks the counter holds exactly the observed views, each with the number of landmarks observed in it |
| SfmStatistics.TallyViews | src/aliceVision/sfm/sfmStatistics.cpp:183-190 | the inner loop bumps the counter of every view of the landmark, in view order |
| SfmStatistics.EmitCounts | src/aliceVision/sfm/sfmStatistics.cpp:195-196 | the final loop pushes the counts of the observed views in ascending view id |
| SfmStatistics.ComputeLandmarksPerView | src/aliceVision/sfm/sfmStatistics.cpp:170-197 | the output is cleared first and ends as the landmark count of every observed view, in ascending view id |
| SfmStatistics.ComputeLandmarksPerViewHistogram | src/aliceVision/sfm/sfmStatistics.cpp:124-167 | as written: undefined behaviour exactly when some landmark has an observation; otherwise the outputs stay at their defaults |
| SfmStatistics.ComputeLandmarksPerViewHistogramFixed | src/aliceVision/sfm/sfmStatistics.cpp:124-167 | as intended: the statistics of the per-view landmark counts, one per observed view with minimum at least 1, and the ten-bin histogram over [min, max + 1) |
| SfmStatistics.AppendRows | src/aliceVision/sfm/sfmStatistics.cpp:314-319 | each column keeps its old entries and gains the matching field of every row, in order |
| SfmStatistics.AppendRowsStep | src/aliceVision/sfm/sfmStatistics.cpp:309-321 | appending rows one at a time is appending them all |
| SfmStatistics.ResidualStatsPerView | src/aliceVision/sfm/sfmStatistics.cpp:309-313 | one row per view, in view order |
| SfmStatistics.TrackLengthStatsPerView | src/aliceVision/sfm/sfmStatistics.cpp:336-340 | one row per view, in view order |
| SfmStatistics.ComputeResidualsPerView | src/aliceVision/sfm/sfmStatistics.cpp:301-324 | without landmarks nothing changes; otherwise each column gains one row per view, never cleared, and nbViews grows by the number of views |
| SfmStatistics.ComputeObservationsLengthsPerView | src/aliceVision/sfm/sfmStatistics.cpp:326-351 | as for residuals, with track lengths; the observation counter is local and discarded |
| SfmStatistics.ResidualRowMeaning | src/aliceVision/sfm/sfmStatistics.cpp:309-319 | each residual row summarises one sample per landmark observed in that view; the row is the default exactly when the view is not observed |
| SfmStatistics.TrackLengthRowMeaning | src/aliceVision/sfm/sfmStatistics.cpp:336-346 | each track-length row summarises the full lengths of the landmarks observed in that view, with minimum at least 1; the row is the default exactly when the view is not observed |
| SfmStatistics.ComputeFeatMatchPerView | src/aliceVision/sfm/sfmStatistics.cpp:199-251 | if either loader failed, both outputs are untouched; otherwise each gains one entry per view, in view order: its feature count or 0, its number of tracks or 0 |

## Left out

- The residual of an observation (`getView`, `getPose`, the intrinsic's
  `residual`, `norm`, lines 46-50) is camera geometry. It is the parameter
  `residualOf`, so the model says nothing about residual values.
- `double` values are exact reals. `std::ceil` is exact, and the
  conversions of the bin counts to `size_t` (lines 64, 119, 295-296) are
  not modelled. A maximum scale of -1 or less, whose ceiling line 295
  converts to `size_t`, is undefined behaviour (double to `size_t`) and is
  out of scope.
- The `BoxStats` and `Histogram` header is not part of this model. The
  mean is taken as the arithmetic mean, the median and quartiles come from
  a caller-supplied rule, and a histogram records its range, its bin count
  and the samples added to it, without binning them.
- Integer counters (`int` in `overallNbObservations`, `nbViews` and the
  `std::map` counter) are unbounded; overflow is not modelled.
- Landmark ids are not modelled: the landmark map is a sequence in its
  visiting order.
- `computeFeatMatchPerView` lines 201-233 are left out: the describer
  types, the feature and match loaders, `TracksBuilder`, and
  `computeTracksPerView` with the loop that gives every view an entry.
  Their results are parameters (`None` when a loader fails). The
  `TracksBuilder` step cannot fail, so only the two loaders have a
  failure case.
- SfmStatistics.ComputeFeatMatchPerView: a failed load returns before
  anything is written, and the outputs are not cleared, so they keep what
  the caller passed in.
- The output vectors passed by reference are assumed to be distinct. The
  model keeps the six per-view vectors, and `out_featPerView` and
  `out_matchPerView`, as separate values, so it does not capture a caller
  passing one vector twice, where the appends would interleave.
- Logging and the `reserve` calls have no effect on the results and are
  left out.

## Findings

| source | as written | input that shows it | evidently intended | confidence | as-written member | corrected member |
|---|---|---|---|---|---|---|
| src/aliceVision/sfm/sfmStatistics.cpp:144-148 | when a view is not yet in the counter, `it->second = 1` writes through the `end()` iterator returned by `find`, which is undefined behaviour | any reconstruction with one landmark observed in one view: the counter is still empty at the first observation | insert the view with count 1, as `computeLandmarksPerView` does at lines 185-189 | not executed | SfmStatistics.ComputeLandmarksPerViewHistogram | SfmStatistics.ComputeLandmarksPerViewHistogramFixed |
