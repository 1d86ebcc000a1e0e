/** The reconstruction the statistics read: views and landmarks, each
    landmark with at most one observation per view. Only what the
    statistics look at is kept. */
module Reconstruction {
  import opened Keys

  type ViewId = Index

  datatype Vec2 = Vec2(x: real, y: real)
  datatype Vec3 = Vec3(x: real, y: real, z: real)

  /** A 2D detection of a landmark in one view, with its detection scale. */
  datatype Observation = Observation(x: Vec2, scale: real)

  /** A 3D point and its observations, keyed by view id. */
  datatype Landmark = Landmark(X: Vec3, observations: map<ViewId, Observation>)

  /** The views, in the order the view map is visited, and the landmarks,
      in the order the landmark map is visited. */
  datatype SfmData = SfmData(views: seq<ViewId>, landmarks: seq<Landmark>)

  /** A per-observation value the statistics collect: the residual norm
      of the camera model, or the detection scale. */
  type SampleOf = (Landmark, ViewId, Observation) -> real

  /** Every view id that occurs in some observation. */
  function ObservedViews(ls: seq<Landmark>): (r: set<ViewId>)
    ensures forall i :: 0 <= i < |ls| ==> ls[i].observations.Keys <= r
    ensures forall v :: v in r <==> CountObserving(ls, v) > 0
  {
    if ls == [] then {}
    else
      var n := |ls| - 1;
      assert forall i :: 0 <= i < n ==> ls[i] == ls[..n][i];
      ObservedViews(ls[..n]) + ls[n].observations.Keys
  }

  /** The number of landmarks observed in view v. */
  function CountObserving(ls: seq<Landmark>, v: ViewId): nat
  {
    if ls == [] then 0
    else CountObserving(ls[..|ls| - 1], v) + (if v in ls[|ls| - 1].observations then 1 else 0)
  }

  /** The number of observations over all landmarks. */
  function TotalObservations(ls: seq<Landmark>): nat
  {
    if ls == [] then 0
    else TotalObservations(ls[..|ls| - 1]) + |ls[|ls| - 1].observations|
  }
}
