/**
 * Per-frame correlation: which image-tracking results of one frame lead to a
 * call of the detection callback, with which marker id and which matrix.
 */
module Correlation {
  import opened Wrappers
  import opened Catalog

  /** A space handle of the XR session (an image's space, the viewer's space); opaque. */
  type Space = nat

  /** `pose.transform.matrix`: passed through to the callback unchanged. */
  type Matrix = seq<real>

  /** Identity of the function stored in the callback slot. */
  type Callback = nat

  /** One entry of `frame.getImageTrackingResults()`. */
  datatype ImageResult = ImageResult(index: int, trackingState: string, imageSpace: Space)

  /** `frame.getPose(space, referenceSpace)`: a transform matrix, or `None` when there is no pose. */
  type PoseFn = (Space, Option<Space>) -> Option<Matrix>

  /** A frame: its image-tracking results, in platform order, and its pose query. */
  datatype Frame = Frame(results: seq<ImageResult>, getPose: PoseFn)

  /** One call `callback(markerId, matrix)`. */
  datatype Call = Call(callback: Callback, markerId: MarkerId, matrix: Matrix)

  /** What `update` reads of the tracker: the catalog keys, the viewer space and the callback slot. */
  datatype TrackerView = TrackerView(keys: seq<MarkerId>, viewerSpace: Option<Space>, callback: Option<Callback>)

  const Tracked: string := "tracked"

  /**
   * `getMarkerIdByIndex`: the key at position `index` in insertion order;
   * `None` for an index out of range and, as JavaScript's `|| null` does,
   * for an empty id.
   */
  function MarkerIdByIndex(keys: seq<MarkerId>, index: int): (r: Option<MarkerId>)
    ensures r.Some? ==> 0 <= index < |keys| && r.value == keys[index]
    ensures 0 <= index < |keys| && keys[index] != "" ==> r == Some(keys[index])
    ensures r.None? ==> !(0 <= index < |keys|) || keys[index] == ""
  {
    if 0 <= index < |keys| && keys[index] != "" then Some(keys[index]) else None
  }

  /** The result is tracked, its index names a marker, it has a pose and a callback is set. */
  predicate Reports(v: TrackerView, getPose: PoseFn, r: ImageResult)
  {
    && r.trackingState == Tracked
    && MarkerIdByIndex(v.keys, r.index).Some?
    && getPose(r.imageSpace, v.viewerSpace).Some?
    && v.callback.Some?
  }

  /** The call a reporting result leads to. */
  function CallFor(v: TrackerView, getPose: PoseFn, r: ImageResult): Call
    requires Reports(v, getPose, r)
  {
    Call(v.callback.value, MarkerIdByIndex(v.keys, r.index).value, getPose(r.imageSpace, v.viewerSpace).value)
  }

  /** The calls that processing `rs` in order makes, while an image tracker exists. */
  function Detections(v: TrackerView, getPose: PoseFn, rs: seq<ImageResult>): seq<Call>
    decreases |rs|
  {
    if rs == [] then []
    else
      var last := rs[|rs| - 1];
      Detections(v, getPose, rs[..|rs| - 1]) + (if Reports(v, getPose, last) then [CallFor(v, getPose, last)] else [])
  }

  /** The positions of the results that report, in increasing order. */
  ghost function Sources(v: TrackerView, getPose: PoseFn, rs: seq<ImageResult>): seq<nat>
    decreases |rs|
  {
    if rs == [] then []
    else Sources(v, getPose, rs[..|rs| - 1]) + (if Reports(v, getPose, rs[|rs| - 1]) then [|rs| - 1] else [])
  }

  /**
   * The calls are exactly those of the reporting results, one per result, in
   * the order of the results: the k-th call comes from the result at
   * position Sources[k], those positions increase, and every reporting
   * result is among them.
   */
  lemma {:induction false} DetectionsExact(v: TrackerView, getPose: PoseFn, rs: seq<ImageResult>)
    ensures var ds, src := Detections(v, getPose, rs), Sources(v, getPose, rs);
      && |ds| == |src|
      && (forall k :: 0 <= k < |src| ==>
            src[k] < |rs| && Reports(v, getPose, rs[src[k]]) && ds[k] == CallFor(v, getPose, rs[src[k]]))
      && (forall k, l :: 0 <= k < l < |src| ==> src[k] < src[l])
      && (forall j :: 0 <= j < |rs| && Reports(v, getPose, rs[j]) ==> j in src)
    decreases |rs|
  {
    if rs != [] {
      var init := rs[..|rs| - 1];
      DetectionsExact(v, getPose, init);
      var ds, src := Detections(v, getPose, rs), Sources(v, getPose, rs);
      var ds', src' := Detections(v, getPose, init), Sources(v, getPose, init);
      forall k | 0 <= k < |src'| ensures src'[k] < |init| && rs[src'[k]] == init[src'[k]] { }
      forall j | 0 <= j < |rs| && Reports(v, getPose, rs[j]) ensures j in src {
        if j < |rs| - 1 {
          assert init[j] == rs[j];
          assert j in src';
        }
      }
    }
  }

  /** At most one call per result. */
  lemma {:induction false} AtMostOnePerResult(v: TrackerView, getPose: PoseFn, rs: seq<ImageResult>)
    ensures |Detections(v, getPose, rs)| <= |rs|
    decreases |rs|
  {
    if rs != [] {
      AtMostOnePerResult(v, getPose, rs[..|rs| - 1]);
    }
  }

  /** Processing two runs of results one after the other gives the calls of the first, then of the second. */
  lemma {:induction false} DetectionsAppend(v: TrackerView, getPose: PoseFn, a: seq<ImageResult>, b: seq<ImageResult>)
    ensures Detections(v, getPose, a + b) == Detections(v, getPose, a) + Detections(v, getPose, b)
    decreases |b|
  {
    if b == [] {
      assert a + b == a;
    } else {
      var b' := b[..|b| - 1];
      assert (a + b)[..|a + b| - 1] == a + b';
      DetectionsAppend(v, getPose, a, b');
    }
  }

  /**
   * A result that is not tracked, whose index names no marker, that has no
   * pose, or that arrives while no callback is set, adds no call wherever it
   * stands in the frame.
   */
  lemma SilentResult(v: TrackerView, getPose: PoseFn, a: seq<ImageResult>, r: ImageResult, b: seq<ImageResult>)
    requires || r.trackingState != Tracked
             || !(0 <= r.index < |v.keys|)
             || getPose(r.imageSpace, v.viewerSpace).None?
             || v.callback.None?
    ensures Detections(v, getPose, a + [r] + b) == Detections(v, getPose, a + b)
  {
    DetectionsAppend(v, getPose, a + [r], b);
    DetectionsAppend(v, getPose, a, [r]);
    DetectionsAppend(v, getPose, a, b);
    assert Detections(v, getPose, [r]) == Detections(v, getPose, []) + [] by {
      assert [r][..0] == [];
    }
  }

  /** With no callback set, or no result tracked, a frame makes no call at all. */
  lemma NothingToReport(v: TrackerView, getPose: PoseFn, rs: seq<ImageResult>)
    requires v.callback.None? || forall j :: 0 <= j < |rs| ==> rs[j].trackingState != Tracked
    ensures Detections(v, getPose, rs) == []
  {
    DetectionsExact(v, getPose, rs);
    var src := Sources(v, getPose, rs);
    if |src| > 0 {
      assert false;
    }
  }

  /**
   * The worked example of the design: on the catalog marker1, marker2,
   * marker3, a tracked result at index 1 followed by an untracked one at
   * index 0, with pose M for the tracked one, give exactly one call:
   * marker2 with M.
   */
  lemma SecondMarkerScenario(cb: Callback, viewer: Option<Space>, getPose: PoseFn, m: Matrix, s0: Space, s1: Space)
    requires getPose(s1, viewer) == Some(m)
    ensures Detections(TrackerView(MarkerIds, viewer, Some(cb)), getPose,
                       [ImageResult(1, Tracked, s1), ImageResult(0, "untracked", s0)])
            == [Call(cb, "marker2", m)]
  {
    var v := TrackerView(MarkerIds, viewer, Some(cb));
    var rs := [ImageResult(1, Tracked, s1), ImageResult(0, "untracked", s0)];
    assert rs[..1] == [rs[0]] && [rs[0]][..0] == [];
    assert MarkerIds[1] == "marker2";
    assert Reports(v, getPose, rs[0]) && CallFor(v, getPose, rs[0]) == Call(cb, "marker2", m);
    assert "untracked" != Tracked by { assert "untracked"[0] != Tracked[0]; }
    assert Detections(v, getPose, rs[..1]) == [Call(cb, "marker2", m)];
  }
}
