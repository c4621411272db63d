/**
 * The marker catalog: the three marker images the tracker registers, the
 * image load that turns one of them into a tracked-image record, and the
 * catalog that `registerMarkers` leaves behind.
 */
module Catalog {
  import opened Wrappers
  import opened OrderedMaps

  type MarkerId = string

  /** The decoded bitmap (the canvas the image was drawn on); opaque here. */
  datatype Bitmap = Bitmap(handle: nat)

  /** The record handed to the tracking platform: `{ image, widthInMeters }`. */
  datatype TrackedImage = TrackedImage(image: Bitmap, widthInMeters: real)

  /** One marker the tracker knows about: its id, its image file, its physical width. */
  datatype MarkerSource = MarkerSource(id: MarkerId, url: string, widthInMeters: real)

  /** The catalog: marker id to tracked image, in insertion order. */
  type Catalog = seq<(MarkerId, TrackedImage)>

  /** Loading and rasterising an image file: a bitmap, or `None` when the image fails to load. */
  type Loader = string -> Option<Bitmap>

  /** The markers `registerMarkers` loads, in the order it loads them (10 cm wide each). */
  const MarkerPlan: seq<MarkerSource> := [
    MarkerSource("marker1", "./markers/1.png", 0.1),
    MarkerSource("marker2", "./markers/2.png", 0.1),
    MarkerSource("marker3", "./markers/3.png", 0.1)
  ]

  const MarkerIds: seq<MarkerId> := ["marker1", "marker2", "marker3"]

  /**
   * `createMarkerFromImage(url, width)`: the promise resolves with the
   * loaded bitmap and the given width, or rejects when the image fails.
   */
  function CreateMarkerFromImage(load: Loader, url: string, width: real): (r: Option<TrackedImage>)
    ensures r.Some? <==> load(url).Some?
    ensures r.Some? ==> r.value.image == load(url).value && r.value.widthInMeters == width
  {
    match load(url)
    case None => None
    case Some(bitmap) => Some(TrackedImage(bitmap, width))
  }

  /**
   * The number of leading markers of `plan` whose image loads: every one
   * before it loads, and the one at that position (if any) fails.
   */
  function LoadedCount(plan: seq<MarkerSource>, load: Loader): (n: nat)
    ensures n <= |plan|
    ensures forall i :: 0 <= i < n ==> load(plan[i].url).Some?
    ensures n < |plan| ==> load(plan[n].url).None?
  {
    if plan == [] || load(plan[0].url).None? then 0
    else 1 + LoadedCount(plan[1..], load)
  }

  /**
   * The catalog after setting each marker of `plan` in turn, stopping at the
   * first image that fails to load; what was set before the failure stays.
   */
  function Populate(m: Catalog, plan: seq<MarkerSource>, load: Loader): Catalog
    decreases |plan|
  {
    if plan == [] then m
    else match CreateMarkerFromImage(load, plan[0].url, plan[0].widthInMeters)
      case None => m
      case Some(image) => Populate(Set(m, plan[0].id, image), plan[1..], load)
  }

  ghost predicate DistinctIds(plan: seq<MarkerSource>)
  {
    forall i, j :: 0 <= i < j < |plan| ==> plan[i].id != plan[j].id
  }

  /** Populating never removes or reorders a key already in the catalog. */
  lemma {:induction false} PopulateExtends(m: Catalog, plan: seq<MarkerSource>, load: Loader)
    ensures Keys(m) <= Keys(Populate(m, plan, load))
    decreases |plan|
  {
    if plan != [] && load(plan[0].url).Some? {
      var image := CreateMarkerFromImage(load, plan[0].url, plan[0].widthInMeters).value;
      PopulateExtends(Set(m, plan[0].id, image), plan[1..], load);
    }
  }

  /** Populating keeps the keys of a well-formed catalog distinct. */
  lemma {:induction false} PopulateDistinct(m: Catalog, plan: seq<MarkerSource>, load: Loader)
    requires DistinctKeys(m)
    ensures DistinctKeys(Populate(m, plan, load))
    decreases |plan|
  {
    if plan != [] && load(plan[0].url).Some? {
      var image := CreateMarkerFromImage(load, plan[0].url, plan[0].widthInMeters).value;
      PopulateDistinct(Set(m, plan[0].id, image), plan[1..], load);
    }
  }

  /** Every key of a populated catalog is a key it had before or an id of the plan. */
  lemma {:induction false} PopulateKeysFrom(m: Catalog, plan: seq<MarkerSource>, load: Loader)
    ensures forall k :: k in Keys(Populate(m, plan, load)) ==>
      k in Keys(m) || exists i :: 0 <= i < |plan| && plan[i].id == k
    decreases |plan|
  {
    if plan != [] && load(plan[0].url).Some? {
      var image := CreateMarkerFromImage(load, plan[0].url, plan[0].widthInMeters).value;
      var m' := Set(m, plan[0].id, image);
      PopulateKeysFrom(m', plan[1..], load);
      forall k | k in Keys(Populate(m, plan, load))
        ensures k in Keys(m) || exists i :: 0 <= i < |plan| && plan[i].id == k
      {
        if k !in Keys(m') {
          var i :| 0 <= i < |plan[1..]| && plan[1..][i].id == k;
          assert plan[i + 1].id == k;
        }
      }
    }
  }

  /** The entries the loaded prefix of `plan` contributes, in plan order. */
  function LoadedEntries(plan: seq<MarkerSource>, load: Loader): Catalog
    decreases |plan|
  {
    if plan == [] || load(plan[0].url).None? then []
    else [(plan[0].id, TrackedImage(load(plan[0].url).value, plan[0].widthInMeters))] + LoadedEntries(plan[1..], load)
  }

  /**
   * The loaded entries are one per marker up to the first failure, each
   * with that marker's id, loaded bitmap and width.
   */
  lemma {:induction false} LoadedEntriesAt(plan: seq<MarkerSource>, load: Loader)
    ensures var e, n := LoadedEntries(plan, load), LoadedCount(plan, load);
      |e| == n &&
      forall i :: 0 <= i < n ==>
        e[i] == (plan[i].id, TrackedImage(load(plan[i].url).value, plan[i].widthInMeters))
    decreases |plan|
  {
    if plan != [] && load(plan[0].url).Some? {
      LoadedEntriesAt(plan[1..], load);
      var e, n := LoadedEntries(plan, load), LoadedCount(plan, load);
      forall i | 0 <= i < n
        ensures e[i] == (plan[i].id, TrackedImage(load(plan[i].url).value, plan[i].widthInMeters))
      {
        if i > 0 {
          assert plan[1..][i - 1] == plan[i];
        }
      }
    }
  }

  /** Setting a key the catalog does not hold appends it. */
  lemma SetNewKey(m: Catalog, k: MarkerId, v: TrackedImage)
    requires k !in Keys(m)
    ensures Set(m, k, v) == m + [(k, v)]
  {
    assert IndexOf(Keys(m), k).None?;
  }

  /**
   * On a catalog holding none of the plan's ids, populating appends one
   * entry per marker that loads, in plan order, up to the first failure.
   */
  lemma {:induction false} PopulateAppends(m: Catalog, plan: seq<MarkerSource>, load: Loader)
    requires DistinctIds(plan)
    requires forall i :: 0 <= i < |plan| ==> plan[i].id !in Keys(m)
    ensures Populate(m, plan, load) == m + LoadedEntries(plan, load)
    decreases |plan|
  {
    if plan != [] && load(plan[0].url).Some? {
      var entry := (plan[0].id, TrackedImage(load(plan[0].url).value, plan[0].widthInMeters));
      var m' := m + [entry];
      assert CreateMarkerFromImage(load, plan[0].url, plan[0].widthInMeters) == Some(entry.1);
      SetNewKey(m, entry.0, entry.1);
      assert Populate(m, plan, load) == Populate(m', plan[1..], load);
      assert LoadedEntries(plan, load) == [entry] + LoadedEntries(plan[1..], load);
      forall i | 0 <= i < |plan[1..]| ensures plan[1..][i].id !in Keys(m') {
        assert plan[1..][i] == plan[i + 1];
        assert plan[i + 1].id != plan[0].id;
        assert Keys(m') == Keys(m) + [entry.0];
      }
      PopulateAppends(m', plan[1..], load);
      assert m' + LoadedEntries(plan[1..], load) == m + LoadedEntries(plan, load);
    }
  }

  /**
   * The first image that fails to load, counting from zero, is the number
   * of markers that load.
   */
  lemma LoadedCountAtFailure(plan: seq<MarkerSource>, load: Loader, k: nat)
    requires k < |plan| && load(plan[k].url).None?
    requires forall i :: 0 <= i < k ==> load(plan[i].url).Some?
    ensures LoadedCount(plan, load) == k
  {
    var n := LoadedCount(plan, load);
    if n < k {
      assert false;
    }
  }

  /**
   * From an empty catalog, registering the marker plan gives one entry per
   * marker up to the first failure, each with its id, bitmap and width.
   */
  lemma RegisteredEntries(load: Loader)
    ensures var r, n := Populate([], MarkerPlan, load), LoadedCount(MarkerPlan, load);
      |r| == n && forall i :: 0 <= i < n ==>
        r[i] == (MarkerPlan[i].id, TrackedImage(load(MarkerPlan[i].url).value, MarkerPlan[i].widthInMeters))
  {
    assert DistinctIds(MarkerPlan);
    PopulateAppends([], MarkerPlan, load);
    LoadedEntriesAt(MarkerPlan, load);
  }

  /**
   * `registerMarkers` on an empty catalog: the keys are the prefix of
   * marker1, marker2, marker3 up to the first image that fails; all three
   * iff every image loads; a failure of the k-th image (counting from zero)
   * leaves exactly k entries; each entry holds its loaded bitmap and 0.1 m.
   */
  lemma RegisterOnEmpty(load: Loader)
    ensures var r, n := Populate([], MarkerPlan, load), LoadedCount(MarkerPlan, load);
      && Keys(r) == MarkerIds[..n]
      && (Keys(r) == MarkerIds <==> forall i :: 0 <= i < 3 ==> load(MarkerPlan[i].url).Some?)
      && (forall k :: (0 <= k < 3 && load(MarkerPlan[k].url).None? &&
                       forall i :: 0 <= i < k ==> load(MarkerPlan[i].url).Some?) ==> |r| == k)
      && forall i :: 0 <= i < |r| ==> r[i].1 == TrackedImage(load(MarkerPlan[i].url).value, 0.1)
  {
    RegisteredEntries(load);
    var r, n := Populate([], MarkerPlan, load), LoadedCount(MarkerPlan, load);
    assert forall i :: 0 <= i < 3 ==> MarkerPlan[i].id == MarkerIds[i] && MarkerPlan[i].widthInMeters == 0.1;
    assert Keys(r) == MarkerIds[..n];
    forall k | 0 <= k < 3 && load(MarkerPlan[k].url).None? &&
        (forall i :: 0 <= i < k ==> load(MarkerPlan[i].url).Some?)
      ensures |r| == k
    {
      LoadedCountAtFailure(MarkerPlan, load, k);
    }
  }

  /**
   * Registering the marker plan keeps a catalog a map whose keys are ids
   * of the plan.
   */
  lemma PopulateKeepsValid(m: Catalog, load: Loader)
    requires DistinctKeys(m) && forall i :: 0 <= i < |m| ==> m[i].0 in MarkerIds
    ensures var r := Populate(m, MarkerPlan, load);
      DistinctKeys(r) && forall i :: 0 <= i < |r| ==> r[i].0 in MarkerIds
  {
    var r := Populate(m, MarkerPlan, load);
    PopulateDistinct(m, MarkerPlan, load);
    PopulateKeysFrom(m, MarkerPlan, load);
    forall i | 0 <= i < |r| ensures r[i].0 in MarkerIds {
      var k := Keys(r)[i];
      if k !in Keys(m) {
        var j :| 0 <= j < |MarkerPlan| && MarkerPlan[j].id == k;
        assert MarkerIds[j] == k;
      } else {
        var j :| 0 <= j < |m| && Keys(m)[j] == k;
      }
    }
  }
}
