/** What the statistics select from a reconstruction, as functions of the
    landmarks: the samples of the per-observation filter (residuals,
    scales), the track lengths of the per-landmark participation filter,
    and the per-view landmark counts; with the properties that relate them. */
module Selection {
  import opened Keys
  import opened Reconstruction

  /** The number of positions of ks whose key lies in K. */
  function Hits(ks: seq<ViewId>, K: set<ViewId>): nat
  {
    if ks == [] then 0
    else Hits(ks[..|ks| - 1], K) + (if ks[|ks| - 1] in K then 1 else 0)
  }

  /** The keys of ks that lie in K. */
  function ElemsIn(ks: seq<ViewId>, K: set<ViewId>): (r: set<ViewId>)
    ensures forall k :: k in r <==> k in ks && k in K
  {
    if ks == [] then {}
    else
      var n := |ks| - 1;
      assert forall k :: k in ks <==> k in ks[..n] || k == ks[n];
      ElemsIn(ks[..n], K) + (if ks[n] in K then {ks[n]} else {})
  }

  /** In a sequence without repeats, the positions that hit K are as many
      as the keys of K that the sequence holds. */
  lemma {:induction false} HitsDistinct(ks: seq<ViewId>, K: set<ViewId>)
    requires StrictlyIncreasing(ks)
    ensures Hits(ks, K) == |ElemsIn(ks, K)|
    decreases |ks|
  {
    if ks != [] {
      var n := |ks| - 1;
      HitsDistinct(ks[..n], K);
      IncreasingPrefixExcludes(ks, n);
      assert ks[n] !in ElemsIn(ks[..n], K);
    }
  }

  /** Some position of ks hits K exactly when ks holds a key of K. */
  lemma {:induction false} HitsPositive(ks: seq<ViewId>, K: set<ViewId>)
    ensures Hits(ks, K) > 0 <==> exists k :: k in ks && k in K
    decreases |ks|
  {
    if ks != [] {
      var n := |ks| - 1;
      HitsPositive(ks[..n], K);
      assert forall k :: k in ks <==> k in ks[..n] || k == ks[n];
    }
  }

  function SumNat(s: seq<nat>): nat
  {
    if s == [] then 0 else SumNat(s[..|s| - 1]) + s[|s| - 1]
  }

  function AsReals(s: seq<nat>): (r: seq<real>)
    ensures |r| == |s| && forall i :: 0 <= i < |s| ==> r[i] == s[i] as real
  {
    seq(|s|, i requires 0 <= i < |s| => s[i] as real)
  }

  // ---------------------------------------------------------------------
  // Per-observation filter: one sample per observation whose view is in
  // the filter, or per observation when the filter is empty.

  predicate InFilter(filter: set<ViewId>, v: ViewId)
  {
    filter == {} || v in filter
  }

  /** The views of l's observations that the per-observation filter keeps. */
  function Selected(l: Landmark, filter: set<ViewId>): set<ViewId>
  {
    set v | v in l.observations && InFilter(filter, v)
  }

  /** The samples of l's observations at the views ks, in the order of ks. */
  function KeySamples(l: Landmark, ks: seq<ViewId>, sampleOf: SampleOf, filter: set<ViewId>): seq<real>
    requires forall k :: k in ks ==> k in l.observations
  {
    if ks == [] then []
    else
      var n := |ks| - 1;
      KeySamples(l, ks[..n], sampleOf, filter)
        + (if InFilter(filter, ks[n]) then [sampleOf(l, ks[n], l.observations[ks[n]])] else [])
  }

  /** The samples of one landmark, in ascending view order. */
  function LandmarkSamples(l: Landmark, sampleOf: SampleOf, filter: set<ViewId>): seq<real>
  {
    KeySamples(l, Ascending(l.observations.Keys), sampleOf, filter)
  }

  /** The samples of all landmarks, landmark by landmark. */
  function ObservationSamples(ls: seq<Landmark>, sampleOf: SampleOf, filter: set<ViewId>): seq<real>
  {
    if ls == [] then []
    else ObservationSamples(ls[..|ls| - 1], sampleOf, filter) + LandmarkSamples(ls[|ls| - 1], sampleOf, filter)
  }

  /** The number of observations the per-observation filter keeps. */
  function SelectedCount(ls: seq<Landmark>, filter: set<ViewId>): nat
  {
    if ls == [] then 0
    else SelectedCount(ls[..|ls| - 1], filter) + |Selected(ls[|ls| - 1], filter)|
  }

  /** The samples of view v alone: one per landmark observed in v. */
  function ViewSamples(ls: seq<Landmark>, sampleOf: SampleOf, v: ViewId): (r: seq<real>)
    ensures |r| == CountObserving(ls, v)
  {
    if ls == [] then []
    else
      var l := ls[|ls| - 1];
      ViewSamples(ls[..|ls| - 1], sampleOf, v)
        + (if v in l.observations then [sampleOf(l, v, l.observations[v])] else [])
  }

  lemma {:induction false} KeySamplesCount(l: Landmark, ks: seq<ViewId>, sampleOf: SampleOf, filter: set<ViewId>)
    requires forall k :: k in ks ==> k in l.observations
    ensures |KeySamples(l, ks, sampleOf, filter)| == Hits(ks, Selected(l, filter))
    decreases |ks|
  {
    if ks != [] {
      var n := |ks| - 1;
      KeySamplesCount(l, ks[..n], sampleOf, filter);
    }
  }

  /** A landmark yields exactly one sample per observation the filter keeps. */
  lemma LandmarkSamplesCount(l: Landmark, sampleOf: SampleOf, filter: set<ViewId>)
    ensures |LandmarkSamples(l, sampleOf, filter)| == |Selected(l, filter)|
  {
    var ks := Ascending(l.observations.Keys);
    AscendingIncreasing(l.observations.Keys);
    KeySamplesCount(l, ks, sampleOf, filter);
    HitsDistinct(ks, Selected(l, filter));
    assert ElemsIn(ks, Selected(l, filter)) == Selected(l, filter);
  }

  /** The sample sequence has one entry per observation the filter keeps. */
  lemma {:induction false} ObservationSamplesCount(ls: seq<Landmark>, sampleOf: SampleOf, filter: set<ViewId>)
    ensures |ObservationSamples(ls, sampleOf, filter)| == SelectedCount(ls, filter)
    decreases |ls|
  {
    if ls != [] {
      ObservationSamplesCount(ls[..|ls| - 1], sampleOf, filter);
      LandmarkSamplesCount(ls[|ls| - 1], sampleOf, filter);
    }
  }

  /** With an empty filter every observation is sampled. */
  lemma {:induction false} UnfilteredSamplesCount(ls: seq<Landmark>, sampleOf: SampleOf)
    ensures |ObservationSamples(ls, sampleOf, {})| == TotalObservations(ls)
  {
    ObservationSamplesCount(ls, sampleOf, {});
    UnfilteredSelectedCount(ls);
  }

  lemma {:induction false} UnfilteredSelectedCount(ls: seq<Landmark>)
    ensures SelectedCount(ls, {}) == TotalObservations(ls)
    decreases |ls|
  {
    if ls != [] {
      var l := ls[|ls| - 1];
      UnfilteredSelectedCount(ls[..|ls| - 1]);
      assert Selected(l, {}) == l.observations.Keys;
    }
  }

  /** No observation is selected exactly when every landmark's selection is empty. */
  lemma {:induction false} NothingSelected(ls: seq<Landmark>, filter: set<ViewId>)
    ensures SelectedCount(ls, filter) == 0 <==> forall i :: 0 <= i < |ls| ==> Selected(ls[i], filter) == {}
    decreases |ls|
  {
    if ls != [] {
      var n := |ls| - 1;
      NothingSelected(ls[..n], filter);
      assert forall i :: 0 <= i < n ==> ls[..n][i] == ls[i];
    }
  }

  /** No sample survives exactly when no observation lies in the filter. */
  lemma NoSamplesIffNothingSelected(ls: seq<Landmark>, sampleOf: SampleOf, filter: set<ViewId>)
    ensures ObservationSamples(ls, sampleOf, filter) == []
            <==> forall i :: 0 <= i < |ls| ==> Selected(ls[i], filter) == {}
  {
    ObservationSamplesCount(ls, sampleOf, filter);
    NothingSelected(ls, filter);
  }

  lemma {:induction false} KeySamplesSingleView(l: Landmark, ks: seq<ViewId>, sampleOf: SampleOf, v: ViewId)
    requires forall k :: k in ks ==> k in l.observations
    requires StrictlyIncreasing(ks)
    ensures KeySamples(l, ks, sampleOf, {v})
            == if v in ks then [sampleOf(l, v, l.observations[v])] else []
    decreases |ks|
  {
    if ks != [] {
      var n := |ks| - 1;
      KeySamplesSingleView(l, ks[..n], sampleOf, v);
      IncreasingPrefixExcludes(ks, n);
      assert forall k :: k in ks <==> k in ks[..n] || k == ks[n];
    }
  }

  /** Filtered to one view, the samples are that view's observations, one
      per landmark observing it, in landmark order. */
  lemma {:induction false} SingleViewSamples(ls: seq<Landmark>, sampleOf: SampleOf, v: ViewId)
    ensures ObservationSamples(ls, sampleOf, {v}) == ViewSamples(ls, sampleOf, v)
    decreases |ls|
  {
    if ls != [] {
      var l := ls[|ls| - 1];
      SingleViewSamples(ls[..|ls| - 1], sampleOf, v);
      AscendingIncreasing(l.observations.Keys);
      KeySamplesSingleView(l, Ascending(l.observations.Keys), sampleOf, v);
    }
  }

  // ---------------------------------------------------------------------
  // Per-landmark participation filter: a landmark is recorded, at its full
  // observation count, when any of its observations is in the filter, or
  // always when the filter is empty.

  predicate Participates(l: Landmark, filter: set<ViewId>)
  {
    filter == {} || exists v :: v in l.observations && v in filter
  }

  /** The recorded track lengths, in landmark order. */
  function TrackLengths(ls: seq<Landmark>, filter: set<ViewId>): (r: seq<nat>)
    ensures |r| <= |ls|
    ensures filter != {} ==> forall i :: 0 <= i < |r| ==> r[i] >= 1
  {
    if ls == [] then []
    else
      var l := ls[|ls| - 1];
      TrackLengths(ls[..|ls| - 1], filter)
        + (if Participates(l, filter) then [|l.observations|] else [])
  }

  /** The track length of every landmark. */
  function AllTrackLengths(ls: seq<Landmark>): (r: seq<nat>)
    ensures |r| == |ls| && forall i :: 0 <= i < |ls| ==> r[i] == |ls[i].observations|
  {
    seq(|ls|, i requires 0 <= i < |ls| => |ls[i].observations|)
  }

  /** The full track lengths of the landmarks observed in view v. */
  function ViewTrackLengths(ls: seq<Landmark>, v: ViewId): (r: seq<nat>)
    ensures |r| == CountObserving(ls, v)
    ensures forall i :: 0 <= i < |r| ==> r[i] >= 1
  {
    if ls == [] then []
    else
      var l := ls[|ls| - 1];
      assert v in l.observations ==> |l.observations| >= 1;
      ViewTrackLengths(ls[..|ls| - 1], v)
        + (if v in l.observations then [|l.observations|] else [])
  }

  /** With an empty filter every landmark is recorded, in order. */
  lemma {:induction false} UnfilteredTrackLengths(ls: seq<Landmark>)
    ensures TrackLengths(ls, {}) == AllTrackLengths(ls)
    decreases |ls|
  {
    if ls != [] {
      UnfilteredTrackLengths(ls[..|ls| - 1]);
    }
  }

  /** Filtered to one view, the recorded lengths are the FULL lengths of
      the landmarks observed in that view, not the one observation the
      filter matched. */
  lemma {:induction false} SingleViewTrackLengths(ls: seq<Landmark>, v: ViewId)
    ensures TrackLengths(ls, {v}) == ViewTrackLengths(ls, v)
    decreases |ls|
  {
    if ls != [] {
      var l := ls[|ls| - 1];
      SingleViewTrackLengths(ls[..|ls| - 1], v);
      assert Participates(l, {v}) <==> v in l.observations;
    }
  }

  /** For a non-empty filter, a landmark participates exactly when the
      per-observation filter would take a sample from it. */
  lemma ParticipationIsSampled(l: Landmark, sampleOf: SampleOf, filter: set<ViewId>)
    requires filter != {}
    ensures Participates(l, filter) <==> LandmarkSamples(l, sampleOf, filter) != []
  {
    LandmarkSamplesCount(l, sampleOf, filter);
    if Participates(l, filter) {
      var v :| v in l.observations && v in filter;
      assert v in Selected(l, filter);
    } else {
      assert Selected(l, filter) == {};
    }
  }

  /** Unfiltered, the recorded lengths add up to the number of observations. */
  lemma {:induction false} UnfilteredTrackLengthsSum(ls: seq<Landmark>)
    ensures SumNat(TrackLengths(ls, {})) == TotalObservations(ls)
    decreases |ls|
  {
    if ls != [] {
      var t := TrackLengths(ls, {});
      UnfilteredTrackLengthsSum(ls[..|ls| - 1]);
      assert t[..|t| - 1] == TrackLengths(ls[..|ls| - 1], {});
    }
  }

  // ---------------------------------------------------------------------
  // Landmarks per view.

  /** The landmark count of each view of ks, in the order of ks. */
  function Counts(ls: seq<Landmark>, ks: seq<ViewId>): (r: seq<nat>)
    ensures |r| == |ks|
    ensures forall i :: 0 <= i < |ks| ==> r[i] == CountObserving(ls, ks[i])
  {
    if ks == [] then []
    else Counts(ls, ks[..|ks| - 1]) + [CountObserving(ls, ks[|ks| - 1])]
  }

  /** One entry per observed view, in ascending view id: the number of
      landmarks observed in that view. */
  function LandmarksPerView(ls: seq<Landmark>): (r: seq<nat>)
    ensures |r| == |ObservedViews(ls)|
    ensures forall i :: 0 <= i < |r| ==> r[i] >= 1
  {
    Counts(ls, Ascending(ObservedViews(ls)))
  }

  lemma {:induction false} CountsStep(ls: seq<Landmark>, ks: seq<ViewId>)
    requires ls != []
    ensures SumNat(Counts(ls, ks))
            == SumNat(Counts(ls[..|ls| - 1], ks)) + Hits(ks, ls[|ls| - 1].observations.Keys)
    decreases |ks|
  {
    if ks != [] {
      var n := |ks| - 1;
      CountsStep(ls, ks[..n]);
      var c, c' := Counts(ls, ks), Counts(ls[..|ls| - 1], ks);
      assert c[..n] == Counts(ls, ks[..n]);
      assert c'[..n] == Counts(ls[..|ls| - 1], ks[..n]);
    }
  }

  lemma {:induction false} CountsTotal(ls: seq<Landmark>, ks: seq<ViewId>)
    requires StrictlyIncreasing(ks)
    requires forall v :: v in ObservedViews(ls) ==> v in ks
    ensures SumNat(Counts(ls, ks)) == TotalObservations(ls)
    decreases |ls|
  {
    if ls != [] {
      var n := |ls| - 1;
      var K := ls[n].observations.Keys;
      assert ObservedViews(ls) == ObservedViews(ls[..n]) + K;
      CountsTotal(ls[..n], ks);
      CountsStep(ls, ks);
      assert K <= ObservedViews(ls);
      HitsCovered(ks, K);
      assert |K| == |ls[n].observations|;
      assert SumNat(Counts(ls, ks)) == TotalObservations(ls[..n]) + |K|;
    } else {
      CountsOfNothing(ks);
    }
  }

  lemma {:induction false} CountsOfNothing(ks: seq<ViewId>)
    ensures SumNat(Counts([], ks)) == 0
    decreases |ks|
  {
    if ks != [] {
      var c := Counts([], ks);
      CountsOfNothing(ks[..|ks| - 1]);
      assert c[..|ks| - 1] == Counts([], ks[..|ks| - 1]);
    }
  }

  lemma HitsCovered(ks: seq<ViewId>, K: set<ViewId>)
    requires StrictlyIncreasing(ks)
    requires forall k :: k in K ==> k in ks
    ensures Hits(ks, K) == |K|
  {
    HitsDistinct(ks, K);
    assert ElemsIn(ks, K) == K;
  }

  /** Every observation is counted once: the per-view counts add up to the
      number of observations. */
  lemma LandmarksPerViewTotal(ls: seq<Landmark>)
    ensures SumNat(LandmarksPerView(ls)) == TotalObservations(ls)
  {
    AscendingIncreasing(ObservedViews(ls));
    CountsTotal(ls, Ascending(ObservedViews(ls)));
  }

  /** The three per-view quantities agree: the samples of a view, the
      lengths recorded for it, and its landmark count. */
  lemma PerViewCountsAgree(ls: seq<Landmark>, sampleOf: SampleOf, i: nat)
    requires i < |ObservedViews(ls)|
    ensures var v := Ascending(ObservedViews(ls))[i];
            |ObservationSamples(ls, sampleOf, {v})| == |TrackLengths(ls, {v})| == LandmarksPerView(ls)[i]
  {
    var v := Ascending(ObservedViews(ls))[i];
    SingleViewSamples(ls, sampleOf, v);
    SingleViewTrackLengths(ls, v);
  }
}
