/**
 * The tracker object: its catalog of markers, the session and viewer space
 * it was initialised with, the image tracker the platform handed back, and
 * the single detection-callback slot.
 */
module Tracker {
  import opened Wrappers
  import opened OrderedMaps
  import opened Catalog
  import opened Correlation

  /** The XR session; opaque. */
  datatype Session = Session(handle: nat)

  /** The platform's image tracker: its opaque handle and the batch of images it was requested for. */
  datatype ImageTracker = ImageTracker(handle: nat, trackedImages: seq<TrackedImage>)

  /** `session.requestImageTracker({ trackedImages })`: a tracker handle, or `None` when the request fails. */
  type RequestFn = (Session, seq<TrackedImage>) -> Option<nat>

  class ARMarkerTracker {
    var markers: Catalog
    var session: Option<Session>
    var viewerSpace: Option<Space>
    var imageTracker: Option<ImageTracker>
    var markerDetectionCallback: Option<Callback>

    /** The catalog is a map (distinct keys) whose keys are ids of the marker plan. */
    ghost predicate Valid()
      reads this
    {
      && DistinctKeys(markers)
      && forall i :: 0 <= i < |markers| ==> markers[i].0 in MarkerIds
    }

    /** The part of the tracker that `update` reads. */
    function View(): TrackerView
      reads this
    {
      TrackerView(Keys(markers), viewerSpace, markerDetectionCallback)
    }

    constructor ()
      ensures Valid()
      ensures markers == [] && session == None && viewerSpace == None
      ensures imageTracker == None && markerDetectionCallback == None
    {
      markers := [];
      session := None;
      viewerSpace := None;
      imageTracker := None;
      markerDetectionCallback := None;
    }

    /**
     * `initialize(session, viewerSpace)`: record both, register the markers,
     * then request an image tracker for the catalog's records in insertion
     * order. The tracker is stored only when the request succeeds; a failed
     * request leaves the field as it was.
     */
    method Initialize(session: Session, viewerSpace: Space, load: Loader, requestImageTracker: RequestFn)
      requires Valid()
      modifies this
      ensures Valid()
      ensures this.session == Some(session) && this.viewerSpace == Some(viewerSpace)
      ensures markers == Populate(old(markers), MarkerPlan, load)
      ensures var handle := requestImageTracker(session, Values(markers));
        imageTracker == if handle.Some? then Some(ImageTracker(handle.value, Values(markers))) else old(imageTracker)
      ensures markerDetectionCallback == old(markerDetectionCallback)
    {
      this.session := Some(session);
      this.viewerSpace := Some(viewerSpace);
      RegisterMarkers(load);
      var trackedImages := Values(markers);
      var handle := requestImageTracker(session, trackedImages);
      if handle.Some? {
        imageTracker := Some(ImageTracker(handle.value, trackedImages));
      }
    }

    /**
     * `registerMarkers()`: set marker1, marker2 and marker3 in turn; the
     * first image that fails to load ends the registration, and the markers
     * set before it stay.
     */
    method RegisterMarkers(load: Loader)
      requires Valid()
      modifies this`markers
      ensures Valid()
      ensures markers == Populate(old(markers), MarkerPlan, load)
      ensures old(markers) == [] ==> Keys(markers) == MarkerIds[..LoadedCount(MarkerPlan, load)]
    {
      ghost var before := markers;
      ghost var plan := MarkerPlan;
      assert plan[0] == MarkerSource("marker1", "./markers/1.png", 0.1);
      assert plan[1..][0] == MarkerSource("marker2", "./markers/2.png", 0.1);
      assert plan[1..][1..][0] == MarkerSource("marker3", "./markers/3.png", 0.1);
      assert plan[1..][1..][1..] == [];
      var marker1 := CreateMarkerFromImage(load, "./markers/1.png", 0.1);
      if marker1.Some? {
        markers := Set(markers, "marker1", marker1.value);
        ghost var after1 := markers;
        var marker2 := CreateMarkerFromImage(load, "./markers/2.png", 0.1);
        if marker2.Some? {
          markers := Set(markers, "marker2", marker2.value);
          ghost var after2 := markers;
          var marker3 := CreateMarkerFromImage(load, "./markers/3.png", 0.1);
          if marker3.Some? {
            markers := Set(markers, "marker3", marker3.value);
          }
          assert markers == Populate(after2, plan[1..][1..], load);
        }
        assert markers == Populate(after1, plan[1..], load);
      }
      assert markers == Populate(before, plan, load);
      PopulateKeepsValid(before, load);
      if before == [] {
        RegisterOnEmpty(load);
      }
    }

    /** The `onMarkerDetected` setter: the new callback replaces the previous one. */
    method OnMarkerDetected(callback: Option<Callback>)
      modifies this`markerDetectionCallback
      ensures markerDetectionCallback == callback
    {
      markerDetectionCallback := callback;
    }

    /**
     * `getMarkerIdByIndex(index)`: the id at that position of the catalog's
     * insertion order; on a valid catalog it is present exactly when the
     * index is in range.
     */
    function GetMarkerIdByIndex(index: int): (r: Option<MarkerId>)
      reads this
      ensures r.Some? ==> 0 <= index < |markers| && r.value == markers[index].0
      ensures Valid() ==> (r.Some? <==> 0 <= index < |markers|)
    {
      MarkerIdByIndex(Keys(markers), index)
    }

    /**
     * `update(frame)`: the calls of the detection callback one frame makes.
     * None without an image tracker; otherwise one per tracked result with a
     * known id and a pose while a callback is set, in result order. The
     * tracker's own state is not changed.
     */
    method Update(frame: Frame) returns (calls: seq<Call>)
      ensures imageTracker.None? ==> calls == []
      ensures imageTracker.Some? ==> calls == Detections(View(), frame.getPose, frame.results)
      ensures |calls| <= |frame.results|
    {
      if imageTracker.None? {
        return [];
      }
      var results := frame.results;
      calls := [];
      for i := 0 to |results|
        invariant calls == Detections(View(), frame.getPose, results[..i])
      {
        var result := results[i];
        var trackingState := result.trackingState;
        var imageIndex := result.index;
        if trackingState == Tracked {
          var markerId := GetMarkerIdByIndex(imageIndex);
          var pose := frame.getPose(result.imageSpace, viewerSpace);
          if pose.Some? && markerId.Some? && markerDetectionCallback.Some? {
            calls := calls + [Call(markerDetectionCallback.value, markerId.value, pose.value)];
          }
        }
        assert results[..i + 1][..i] == results[..i];
      }
      assert results[..|results|] == results;
      AtMostOnePerResult(View(), frame.getPose, results);
    }
  }

  /** Two updates with the same frame make the same calls: no state carries over between frames. */
  method RepeatedUpdate(t: ARMarkerTracker, frame: Frame) returns (first: seq<Call>, second: seq<Call>)
    ensures first == second
  {
    first := t.Update(frame);
    second := t.Update(frame);
  }

  /**
   * When the platform refuses the image tracker, the tracker stays without
   * one and every later frame makes no call, whatever its results.
   */
  method FailedRequestScenario(session: Session, viewerSpace: Space, load: Loader, callback: Callback, frame: Frame)
    returns (calls: seq<Call>)
    ensures calls == []
  {
    var t := new ARMarkerTracker();
    t.OnMarkerDetected(Some(callback));
    t.Initialize(session, viewerSpace, load, (s, images) => None);
    calls := t.Update(frame);
  }
}
