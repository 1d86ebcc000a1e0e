/** The statistics routines of src/aliceVision/sfm/sfmStatistics.cpp.
    Each routine resets its outputs, walks the landmarks and their
    observations in map order, collects samples under a view filter and
    fills its outputs; the methods below keep those loops and are proved
    against the selection functions of module Selection. Output parameters
    passed by reference are taken in and handed back; a histogram pointer
    is a flag saying whether the caller passed one. */
module SfmStatistics {
  import opened Keys
  import opened Summary
  import opened Reconstruction
  import opened Selection

  // ---------------------------------------------------------------------
  // Histogram layouts.

  /** Residual histogram: [0, ceil(max)) in 2 * ceil(max) bins. */
  function ResidualHistogram(samples: seq<real>, stats: BoxStats): Histogram
  {
    if samples == [] then EmptyHistogram
    else Add(Histogram(0.0, Ceil(stats.max) as real, Ceil(stats.max) * 2, []), samples)
  }

  /** Scale histogram: [0, ceil(max)) in ceil(max) + 1 bins. */
  function ScaleHistogram(samples: seq<real>, stats: BoxStats): Histogram
  {
    if samples == [] then EmptyHistogram
    else
      var maxValue := Ceil(stats.max);
      Add(Histogram(0.0, maxValue as real, maxValue + 1, []), samples)
  }

  /** Track-length histogram: [min, max + 1) in max - min + 1 bins. */
  function TrackLengthHistogram(lengths: seq<real>, stats: BoxStats): Histogram
  {
    if lengths == [] then EmptyHistogram
    else Add(Histogram(stats.min, stats.max + 1.0, (stats.max - stats.min + 1.0).Floor, []), lengths)
  }

  /** Landmarks-per-view histogram: [min, max + 1) in a fixed 10 bins. */
  function CoverageHistogram(counts: seq<real>, stats: BoxStats): Histogram
  {
    if counts == [] then EmptyHistogram
    else Add(Histogram(stats.min, stats.max + 1.0, 10, []), counts)
  }

  function HistogramOutput(withHistogram: bool, h: Histogram): (r: Option<Histogram>)
    ensures r.Some? <==> withHistogram
    ensures r.Some? ==> r.value == h
  {
    if withHistogram then Some(h) else None
  }

  /** The track-length histogram has one unit-wide bin per integer length
      from the shortest to the longest recorded track, and every recorded
      length falls inside its range. */
  lemma TrackLengthHistogramLayout(lengths: seq<nat>, rule: QuartileRule)
    requires lengths != []
    ensures var samples := AsReals(lengths);
            var h := TrackLengthHistogram(samples, StatsOf(samples, rule));
            && h.nbBins >= 1
            && h.high - h.low == h.nbBins as real
            && h.added == samples
            && forall i :: 0 <= i < |samples| ==> h.low <= samples[i] < h.high
  {
    UnitBins(lengths, StatsOf(AsReals(lengths), rule));
  }

  /** The same layout for any summary whose extremes are recorded lengths
      bounding all of them. */
  lemma UnitBins(lengths: seq<nat>, stats: BoxStats)
    requires lengths != []
    requires stats.min in AsReals(lengths) && stats.max in AsReals(lengths)
    requires forall x :: x in AsReals(lengths) ==> stats.min <= x <= stats.max
    ensures var samples := AsReals(lengths);
            var h := TrackLengthHistogram(samples, stats);
            && h.nbBins >= 1
            && h.high - h.low == h.nbBins as real
            && h.added == samples
            && forall i :: 0 <= i < |samples| ==> h.low <= samples[i] < h.high
  {
    var samples := AsReals(lengths);
    var w := stats.max - stats.min + 1.0;
    assert w.Floor >= 1 && w.Floor as real == w by {
      var a :| 0 <= a < |samples| && samples[a] == stats.min;
      var b :| 0 <= b < |samples| && samples[b] == stats.max;
      var width := lengths[b] - lengths[a] + 1;
      assert w == width as real;
    }
    assert forall i :: 0 <= i < |samples| ==> stats.min <= samples[i] <= stats.max by {
      forall i | 0 <= i < |samples| ensures stats.min <= samples[i] <= stats.max {
        assert samples[i] in samples;
      }
    }
    assert TrackLengthHistogram(samples, stats) == Histogram(stats.min, stats.max + 1.0, w.Floor, samples);
  }

  // ---------------------------------------------------------------------
  // Per-observation sample selection.

  /** The samples of one landmark: its observations in ascending view
      order, skipping those outside a non-empty filter. */
  method CollectLandmarkSamples(l: Landmark, sampleOf: SampleOf, specificViews: set<ViewId>)
    returns (samples: seq<real>)
    ensures samples == LandmarkSamples(l, sampleOf, specificViews)
  {
    samples := [];
    var ks := Ascending(l.observations.Keys);
    for j := 0 to |ks|
      invariant samples == KeySamples(l, ks[..j], sampleOf, specificViews)
    {
      var v := ks[j];
      assert ks[..j + 1][..j] == ks[..j];
      if specificViews != {} && v !in specificViews {
        continue;
      }
      samples := samples + [sampleOf(l, v, l.observations[v])];
    }
    assert ks[..|ks|] == ks;
  }

  /** One sample per observation whose view is in the filter, or per
      observation when the filter is empty, in landmark-then-view order. */
  method CollectObservationSamples(ls: seq<Landmark>, sampleOf: SampleOf, specificViews: set<ViewId>)
    returns (samples: seq<real>)
    ensures samples == ObservationSamples(ls, sampleOf, specificViews)
  {
    samples := [];
    for i := 0 to |ls|
      invariant samples == ObservationSamples(ls[..i], sampleOf, specificViews)
    {
      var landmarkSamples := CollectLandmarkSamples(ls[i], sampleOf, specificViews);
      assert ls[..i + 1][..i] == ls[..i];
      samples := samples + landmarkSamples;
    }
    assert ls[..|ls|] == ls;
  }

  function ResidualStats(d: SfmData, residualOf: SampleOf, rule: QuartileRule, specificViews: set<ViewId>): BoxStats
  {
    StatsOf(ObservationSamples(d.landmarks, residualOf, specificViews), rule)
  }

  /** computeResidualsHistogram: the residual norm of every selected
      observation, summarised. `residualOf` stands for the camera model. */
  method ComputeResidualsHistogram(d: SfmData, residualOf: SampleOf, rule: QuartileRule,
                                   withHistogram: bool, specificViews: set<ViewId>)
    returns (stats: BoxStats, histogram: Option<Histogram>)
    ensures stats == ResidualStats(d, residualOf, rule, specificViews)
    ensures histogram == HistogramOutput(withHistogram,
              ResidualHistogram(ObservationSamples(d.landmarks, residualOf, specificViews), stats))
  {
    stats := EmptyStats;
    histogram := if withHistogram then Some(EmptyHistogram) else None;
    if |d.landmarks| == 0 {
      return;
    }
    var residuals := CollectObservationSamples(d.landmarks, residualOf, specificViews);
    if |residuals| == 0 {
      return;
    }
    stats := Summarize(residuals, rule);
    if withHistogram {
      histogram := Some(ResidualHistogram(residuals, stats));
    }
  }

  function ScaleOf(l: Landmark, v: ViewId, o: Observation): real
  {
    o.scale
  }

  /** computeScaleHistogram: the detection scale of every selected
      observation, summarised. */
  method ComputeScaleHistogram(d: SfmData, rule: QuartileRule, withHistogram: bool, specificViews: set<ViewId>)
    returns (stats: BoxStats, histogram: Option<Histogram>)
    ensures stats == StatsOf(ObservationSamples(d.landmarks, ScaleOf, specificViews), rule)
    ensures histogram == HistogramOutput(withHistogram,
              ScaleHistogram(ObservationSamples(d.landmarks, ScaleOf, specificViews), stats))
  {
    stats := EmptyStats;
    histogram := if withHistogram then Some(EmptyHistogram) else None;
    if |d.landmarks| == 0 {
      return;
    }
    var scales := CollectObservationSamples(d.landmarks, ScaleOf, specificViews);
    if |scales| == 0 {
      return;
    }
    stats := Summarize(scales, rule);
    if withHistogram {
      histogram := Some(ScaleHistogram(scales, stats));
    }
  }

  // ---------------------------------------------------------------------
  // Track lengths under the participation filter.

  /** The number of l's observations whose view is in specificViews. */
  method CountObservationsInViews(l: Landmark, specificViews: set<ViewId>) returns (nb: nat)
    ensures nb == |l.observations.Keys * specificViews|
    ensures nb > 0 <==> exists v :: v in l.observations && v in specificViews
  {
    nb := 0;
    var ks := Ascending(l.observations.Keys);
    for j := 0 to |ks|
      invariant nb == Hits(ks[..j], specificViews)
    {
      assert ks[..j + 1][..j] == ks[..j];
      if ks[j] in specificViews {
        nb := nb + 1;
      }
    }
    assert ks[..|ks|] == ks;
    ObservationsInViews(l, specificViews);
  }

  lemma ObservationsInViews(l: Landmark, specificViews: set<ViewId>)
    ensures var nb := Hits(Ascending(l.observations.Keys), specificViews);
            && nb == |l.observations.Keys * specificViews|
            && (nb > 0 <==> exists v :: v in l.observations && v in specificViews)
  {
    var ks := Ascending(l.observations.Keys);
    AscendingIncreasing(l.observations.Keys);
    HitsDistinct(ks, specificViews);
    assert ElemsIn(ks, specificViews) == l.observations.Keys * specificViews;
    HitsPositive(ks, specificViews);
  }

  function TrackLengthStats(d: SfmData, rule: QuartileRule, specificViews: set<ViewId>): BoxStats
  {
    StatsOf(AsReals(TrackLengths(d.landmarks, specificViews)), rule)
  }

  /** computeObservationsLengthsHistogram: the full observation count of
      every participating landmark, summarised; the caller's running
      observation counter grows by every landmark's count. */
  method ComputeObservationsLengthsHistogram(d: SfmData, rule: QuartileRule, overallNbObservations: int,
                                             withHistogram: bool, specificViews: set<ViewId>)
    returns (stats: BoxStats, overall: int, histogram: Option<Histogram>)
    ensures overall == overallNbObservations + TotalObservations(d.landmarks)
    ensures stats == TrackLengthStats(d, rule, specificViews)
    ensures histogram == HistogramOutput(withHistogram,
              TrackLengthHistogram(AsReals(TrackLengths(d.landmarks, specificViews)), stats))
  {
    stats := EmptyStats;
    histogram := if withHistogram then Some(EmptyHistogram) else None;
    overall := overallNbObservations;
    var ls := d.landmarks;
    if |ls| == 0 {
      return;
    }
    var nbObservations: seq<nat> := [];
    for i := 0 to |ls|
      invariant nbObservations == TrackLengths(ls[..i], specificViews)
      invariant overall == overallNbObservations + TotalObservations(ls[..i])
    {
      var l := ls[i];
      assert ls[..i + 1][..i] == ls[..i];
      if specificViews != {} {
        var nbObsSpecificViews := CountObservationsInViews(l, specificViews);
        if nbObsSpecificViews > 0 {
          nbObservations := nbObservations + [|l.observations|];
        }
      } else {
        nbObservations := nbObservations + [|l.observations|];
      }
      overall := overall + |l.observations|;
    }
    assert ls[..|ls|] == ls;
    if |nbObservations| == 0 {
      return;
    }
    var samples := AsReals(nbObservations);
    stats := Summarize(samples, rule);
    if withHistogram {
      histogram := Some(TrackLengthHistogram(samples, stats));
    }
  }

  // ---------------------------------------------------------------------
  // Landmarks per view.

  /** The counter m after counting the views ks, as computeLandmarksPerView's inner
      loop builds it: bump an existing entry, insert 1 otherwise. */
  ghost function Tally(m: map<ViewId, nat>, ks: seq<ViewId>): map<ViewId, nat>
  {
    if ks == [] then m
    else
      var t, v := Tally(m, ks[..|ks| - 1]), ks[|ks| - 1];
      t[v := (if v in t then t[v] else 0) + 1]
  }

  /** The per-view counter after the landmarks of ls, each landmark's views
      visited in ascending order. */
  ghost function Coverage(ls: seq<Landmark>): map<ViewId, nat>
  {
    if ls == [] then map[]
    else Tally(Coverage(ls[..|ls| - 1]), Ascending(ls[|ls| - 1].observations.Keys))
  }

  /** Over distinct views, tallying adds each view once. */
  lemma {:induction false} TallyBumps(m: map<ViewId, nat>, ks: seq<ViewId>)
    requires StrictlyIncreasing(ks)
    ensures forall v :: v in Tally(m, ks) <==> v in m || v in ks
    ensures forall v :: v in Tally(m, ks) ==>
              Tally(m, ks)[v] == (if v in m then m[v] else 0) + (if v in ks then 1 else 0)
    decreases |ks|
  {
    if ks != [] {
      var n := |ks| - 1;
      assert StrictlyIncreasing(ks[..n]);
      TallyBumps(m, ks[..n]);
      IncreasingPrefixExcludes(ks, n);
      assert forall v :: v in ks <==> v in ks[..n] || v == ks[n];
    }
  }

  /** The counter holds exactly the observed views, each with the number
      of landmarks observed in it. */
  lemma {:induction false} CoverageCounts(ls: seq<Landmark>)
    ensures forall v :: v in Coverage(ls) <==> v in ObservedViews(ls)
    ensures forall v :: v in Coverage(ls) ==> Coverage(ls)[v] == CountObserving(ls, v)
    decreases |ls|
  {
    if ls != [] {
      var n := |ls| - 1;
      var keys := ls[n].observations.Keys;
      CoverageCounts(ls[..n]);
      AscendingIncreasing(keys);
      TallyBumps(Coverage(ls[..n]), Ascending(keys));
      assert ObservedViews(ls) == ObservedViews(ls[..n]) + keys;
    }
  }

  /** The inner loop of computeLandmarksPerView: bump the counter of every
      view that observes landmark l, inserting a fresh entry at 1. */
  method TallyViews(counter: map<ViewId, nat>, l: Landmark) returns (counter': map<ViewId, nat>)
    ensures counter' == Tally(counter, Ascending(l.observations.Keys))
  {
    counter' := counter;
    var ks := Ascending(l.observations.Keys);
    for j := 0 to |ks|
      invariant counter' == Tally(counter, ks[..j])
    {
      var v := ks[j];
      assert ks[..j + 1][..j] == ks[..j];
      if v in counter' {
        counter' := counter'[v := counter'[v] + 1];
      } else {
        counter' := counter'[v := 1];
      }
    }
    assert ks[..|ks|] == ks;
  }

  /** The final loop of computeLandmarksPerView: the counter's values in
      ascending view id. */
  method EmitCounts(counter: map<ViewId, nat>, ghost ls: seq<Landmark>)
    returns (counts: seq<nat>)
    requires counter == Coverage(ls)
    ensures counts == LandmarksPerView(ls)
  {
    counts := [];
    var keys := Ascending(counter.Keys);
    CoverageCounts(ls);
    assert counter.Keys == ObservedViews(ls);
    for j := 0 to |keys|
      invariant counts == Counts(ls, keys[..j])
    {
      assert keys[..j + 1][..j] == keys[..j];
      counts := counts + [counter[keys[j]]];
    }
    assert keys[..|keys|] == keys;
  }

  /** computeLandmarksPerView: for every view seen in an observation, in
      ascending view id, the number of landmarks observed in it. */
  method ComputeLandmarksPerView(d: SfmData) returns (nbLandmarksPerView: seq<nat>)
    ensures nbLandmarksPerView == LandmarksPerView(d.landmarks)
  {
    nbLandmarksPerView := [];
    var ls := d.landmarks;
    if |ls| == 0 {
      return;
    }
    var counter: map<ViewId, nat> := map[];
    for i := 0 to |ls|
      invariant counter == Coverage(ls[..i])
    {
      counter := TallyViews(counter, ls[i]);
      assert ls[..i + 1][..i] == ls[..i] && ls[..i + 1][i] == ls[i];
    }
    assert ls[..|ls|] == ls;
    if |counter| == 0 {
      CoverageCounts(ls);
      assert ObservedViews(ls) == {};
      return;
    }
    nbLandmarksPerView := EmitCounts(counter, ls);
  }

  /** The result of a routine that can reach undefined behaviour. */
  datatype Outcome<T> = Defined(value: T) | Undefined

  /** computeLandmarksPerViewHistogram as written: on the first sighting of
      a view it writes through the map's end() iterator instead of
      inserting. The counter starts empty, so the very first observation
      takes that path; the routine is defined only when no landmark has an
      observation, and then it leaves its outputs at their defaults. */
  method ComputeLandmarksPerViewHistogram(d: SfmData, rule: QuartileRule, withHistogram: bool)
    returns (r: Outcome<(BoxStats, Option<Histogram>)>)
    ensures r.Undefined? <==> ObservedViews(d.landmarks) != {}
    ensures r.Defined? ==> r.value == (EmptyStats, HistogramOutput(withHistogram, EmptyHistogram))
  {
    var stats := EmptyStats;
    var histogram := if withHistogram then Some(EmptyHistogram) else None;
    var ls := d.landmarks;
    if |ls| == 0 {
      return Defined((stats, histogram));
    }
    var counter: map<ViewId, int> := map[];
    for i := 0 to |ls|
      invariant counter == map[]
      invariant ObservedViews(ls[..i]) == {}
    {
      var l := ls[i];
      var ks := Ascending(l.observations.Keys);
      for j := 0 to |ks|
        invariant counter == map[]
        invariant j == 0
      {
        var v := ks[j];
        match Find(counter, v)
        case Some(n) =>
          counter := counter[v := n + 1];
        case None =>
          assert v in ObservedViews(ls);
          return Undefined;
      }
      assert ls[..i + 1][..i] == ls[..i];
      assert ObservedViews(ls[..i + 1]) == ObservedViews(ls[..i]) + l.observations.Keys;
    }
    assert ls[..|ls|] == ls;
    return Defined((stats, histogram));
  }

  /** std::map::find: the entry of key v, if there is one. */
  function Find(m: map<ViewId, int>, v: ViewId): (r: Option<int>)
    ensures r.Some? <==> v in m
    ensures r.Some? ==> r.value == m[v]
  {
    if v in m then Some(m[v]) else None
  }

  /** computeLandmarksPerViewHistogram as evidently intended: the per-view
      counts of computeLandmarksPerView, summarised, with the fixed
      ten-bin histogram over [min, max + 1). */
  method ComputeLandmarksPerViewHistogramFixed(d: SfmData, rule: QuartileRule, withHistogram: bool)
    returns (stats: BoxStats, histogram: Option<Histogram>)
    ensures stats == StatsOf(AsReals(LandmarksPerView(d.landmarks)), rule)
    ensures stats.count == |ObservedViews(d.landmarks)|
    ensures ObservedViews(d.landmarks) != {} ==> stats.min >= 1.0
    ensures histogram == HistogramOutput(withHistogram,
              CoverageHistogram(AsReals(LandmarksPerView(d.landmarks)), stats))
  {
    stats := EmptyStats;
    histogram := if withHistogram then Some(EmptyHistogram) else None;
    var counts := ComputeLandmarksPerView(d);
    if |counts| == 0 {
      return;
    }
    var samples := AsReals(counts);
    stats := Summarize(samples, rule);
    ghost var k :| 0 <= k < |samples| && samples[k] == stats.min;
    if withHistogram {
      histogram := Some(CoverageHistogram(samples, stats));
    }
  }

  // ---------------------------------------------------------------------
  // Per-view drivers.

  /** The six BoxStats fields the per-view drivers record, one column each. */
  datatype Columns = Columns(
    min: seq<real>,
    max: seq<real>,
    mean: seq<real>,
    median: seq<real>,
    firstQuartile: seq<real>,
    thirdQuartile: seq<real>)

  function AppendRow(c: Columns, s: BoxStats): Columns
  {
    Columns(c.min + [s.min], c.max + [s.max], c.mean + [s.mean],
            c.median + [s.median], c.firstQuartile + [s.firstQuartile], c.thirdQuartile + [s.thirdQuartile])
  }

  /** The columns after appending one row per BoxStats of rows: each column
      keeps its old entries and gains that field of every row, in order. */
  function AppendRows(c: Columns, rows: seq<BoxStats>): (r: Columns)
    ensures |r.min| == |c.min| + |rows| && r.min[..|c.min|] == c.min
    ensures |r.max| == |c.max| + |rows| && r.max[..|c.max|] == c.max
    ensures |r.mean| == |c.mean| + |rows| && r.mean[..|c.mean|] == c.mean
    ensures |r.median| == |c.median| + |rows| && r.median[..|c.median|] == c.median
    ensures |r.firstQuartile| == |c.firstQuartile| + |rows| && r.firstQuartile[..|c.firstQuartile|] == c.firstQuartile
    ensures |r.thirdQuartile| == |c.thirdQuartile| + |rows| && r.thirdQuartile[..|c.thirdQuartile|] == c.thirdQuartile
    ensures forall i :: 0 <= i < |rows| ==>
              && r.min[|c.min| + i] == rows[i].min
              && r.max[|c.max| + i] == rows[i].max
              && r.mean[|c.mean| + i] == rows[i].mean
              && r.median[|c.median| + i] == rows[i].median
              && r.firstQuartile[|c.firstQuartile| + i] == rows[i].firstQuartile
              && r.thirdQuartile[|c.thirdQuartile| + i] == rows[i].thirdQuartile
  {
    if rows == [] then c
    else AppendRow(AppendRows(c, rows[..|rows| - 1]), rows[|rows| - 1])
  }

  lemma AppendRowsStep(c: Columns, rows: seq<BoxStats>, i: nat)
    requires i < |rows|
    ensures AppendRows(c, rows[..i + 1]) == AppendRow(AppendRows(c, rows[..i]), rows[i])
  {
    assert rows[..i + 1][..i] == rows[..i];
  }

  /** The residual statistics of each view, in view order. */
  function ResidualStatsPerView(d: SfmData, residualOf: SampleOf, rule: QuartileRule): (r: seq<BoxStats>)
    ensures |r| == |d.views|
  {
    seq(|d.views|, i requires 0 <= i < |d.views| => ResidualStats(d, residualOf, rule, {d.views[i]}))
  }

  /** The track-length statistics of each view, in view order. */
  function TrackLengthStatsPerView(d: SfmData, rule: QuartileRule): (r: seq<BoxStats>)
    ensures |r| == |d.views|
  {
    seq(|d.views|, i requires 0 <= i < |d.views| => TrackLengthStats(d, rule, {d.views[i]}))
  }

  /** computeResidualsPerView: with landmarks present, one row of residual
      statistics per view is appended and the view counter grows by the
      number of views; without landmarks nothing changes. */
  method ComputeResidualsPerView(d: SfmData, residualOf: SampleOf, rule: QuartileRule,
                                 nbViews: int, columns: Columns)
    returns (nbViews': int, columns': Columns)
    ensures d.landmarks == [] ==> nbViews' == nbViews && columns' == columns
    ensures d.landmarks != [] ==> nbViews' == nbViews + |d.views|
    ensures d.landmarks != [] ==> columns' == AppendRows(columns, ResidualStatsPerView(d, residualOf, rule))
  {
    nbViews', columns' := nbViews, columns;
    if |d.landmarks| == 0 {
      return;
    }
    ghost var rows := ResidualStatsPerView(d, residualOf, rule);
    for i := 0 to |d.views|
      invariant nbViews' == nbViews + i
      invariant columns' == AppendRows(columns, rows[..i])
    {
      var residualStats, residualHistogram := ComputeResidualsHistogram(d, residualOf, rule, true, {d.views[i]});
      AppendRowsStep(columns, rows, i);
      columns' := AppendRow(columns', residualStats);
      nbViews' := nbViews' + 1;
    }
    assert rows[..|d.views|] == rows;
  }

  /** computeObservationsLengthsPerView: as computeResidualsPerView, with
      the track-length statistics of each view; the observation counter
      it passes along is its own and is discarded. */
  method ComputeObservationsLengthsPerView(d: SfmData, rule: QuartileRule, nbViews: int, columns: Columns)
    returns (nbViews': int, columns': Columns)
    ensures d.landmarks == [] ==> nbViews' == nbViews && columns' == columns
    ensures d.landmarks != [] ==> nbViews' == nbViews + |d.views|
    ensures d.landmarks != [] ==> columns' == AppendRows(columns, TrackLengthStatsPerView(d, rule))
  {
    nbViews', columns' := nbViews, columns;
    if |d.landmarks| == 0 {
      return;
    }
    var overallNbObservations := 0;
    ghost var rows := TrackLengthStatsPerView(d, rule);
    for i := 0 to |d.views|
      invariant nbViews' == nbViews + i
      invariant columns' == AppendRows(columns, rows[..i])
    {
      var lengthStats, histogram;
      lengthStats, overallNbObservations, histogram :=
        ComputeObservationsLengthsHistogram(d, rule, overallNbObservations, true, {d.views[i]});
      AppendRowsStep(columns, rows, i);
      columns' := AppendRow(columns', lengthStats);
      nbViews' := nbViews' + 1;
    }
    assert rows[..|d.views|] == rows;
  }

  /** Each per-view residual row summarises that view's residuals: one
      sample per landmark observed in the view; a view no landmark is
      observed in gets the default row. */
  lemma ResidualRowMeaning(d: SfmData, residualOf: SampleOf, rule: QuartileRule, i: nat)
    requires i < |d.views|
    ensures var row := ResidualStatsPerView(d, residualOf, rule)[i];
            var v := d.views[i];
            && row == StatsOf(ViewSamples(d.landmarks, residualOf, v), rule)
            && row.count == CountObserving(d.landmarks, v)
            && (row == EmptyStats <==> v !in ObservedViews(d.landmarks))
  {
    SingleViewSamples(d.landmarks, residualOf, d.views[i]);
  }

  /** Each per-view track-length row summarises the FULL lengths of the
      landmarks observed in that view; its minimum is at least 1 when the
      view is observed, and the row is the default otherwise. */
  lemma TrackLengthRowMeaning(d: SfmData, rule: QuartileRule, i: nat)
    requires i < |d.views|
    ensures var row := TrackLengthStatsPerView(d, rule)[i];
            var v := d.views[i];
            && row == StatsOf(AsReals(ViewTrackLengths(d.landmarks, v)), rule)
            && row.count == CountObserving(d.landmarks, v)
            && (row == EmptyStats <==> v !in ObservedViews(d.landmarks))
            && (v in ObservedViews(d.landmarks) ==> row.min >= 1.0)
  {
    var v := d.views[i];
    SingleViewTrackLengths(d.landmarks, v);
    var lengths := AsReals(ViewTrackLengths(d.landmarks, v));
    var row := StatsOf(lengths, rule);
    if lengths != [] {
      var k :| 0 <= k < |lengths| && lengths[k] == row.min;
    }
  }

  // ---------------------------------------------------------------------
  // Features and tracks per view.

  type TrackId = nat

  /** The last loop of computeFeatMatchPerView. `featuresPerView` is the
      feature loader's result and `tracksPerView` the tracks built from the
      loaded matches, each None when its loader failed; either failure
      returns before anything is written. Otherwise each output gains one
      entry per view: its feature count, or 0 when it has no features; the
      number of tracks through it, or 0 when it has none. */
  method ComputeFeatMatchPerView(d: SfmData,
                                 featuresPerView: Option<map<ViewId, nat>>,
                                 tracksPerView: Option<map<ViewId, set<TrackId>>>,
                                 featPerView: seq<nat>, matchPerView: seq<nat>)
    returns (featPerView': seq<nat>, matchPerView': seq<nat>)
    ensures featuresPerView.None? || tracksPerView.None? ==>
              featPerView' == featPerView && matchPerView' == matchPerView
    ensures featuresPerView.Some? && tracksPerView.Some? ==>
              && |featPerView'| == |featPerView| + |d.views| && featPerView'[..|featPerView|] == featPerView
              && |matchPerView'| == |matchPerView| + |d.views| && matchPerView'[..|matchPerView|] == matchPerView
    ensures featuresPerView.Some? && tracksPerView.Some? ==>
              forall i :: 0 <= i < |d.views| ==>
                var v := d.views[i];
                && featPerView'[|featPerView| + i]
                   == (if v in featuresPerView.value then featuresPerView.value[v] else 0)
                && matchPerView'[|matchPerView| + i]
                   == (if v in tracksPerView.value then |tracksPerView.value[v]| else 0)
  {
    featPerView', matchPerView' := featPerView, matchPerView;
    if featuresPerView.None? {
      return;
    }
    if tracksPerView.None? {
      return;
    }
    var features, tracks := featuresPerView.value, tracksPerView.value;
    for i := 0 to |d.views|
      invariant |featPerView'| == |featPerView| + i && featPerView'[..|featPerView|] == featPerView
      invariant |matchPerView'| == |matchPerView| + i && matchPerView'[..|matchPerView|] == matchPerView
      invariant forall k :: 0 <= k < i ==>
                  var v := d.views[k];
                  && featPerView'[|featPerView| + k] == (if v in features then features[v] else 0)
                  && matchPerView'[|matchPerView| + k] == (if v in tracks then |tracks[v]| else 0)
    {
      var viewId := d.views[i];
      if viewId in features {
        featPerView' := featPerView' + [features[viewId]];
      } else {
        featPerView' := featPerView' + [0];
      }
      if viewId in tracks {
        matchPerView' := matchPerView' + [|tracks[viewId]|];
      } else {
        matchPerView' := matchPerView' + [0];
      }
    }
  }
}
