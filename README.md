# ARMarkerTracker, modelled in Dafny

This project models the marker registry and the per-frame correlation of the
`ARMarkerTracker` class (`js/ARMarkerTracker.js`). The tracker registers three
marker images (marker1, marker2, marker3, each 10 cm wide) with an XR
session's image tracker. On every frame it walks the image-tracking results.
For each result whose state is `"tracked"` it turns the result's index back
into a marker id, by the catalog's insertion order, and hands
`(markerId, pose matrix)` to the single detection callback.

Modules, one per component:

- `Wrappers` (`wrappers.dfy`): `Option`, standing for JavaScript's `null`.
- `OrderedMaps` (`ordered_map.dfy`): the part of JavaScript's `Map` the class uses. It is a sequence of entries with `Keys`, `Values`, `Get` and `Set`. `Set` keeps an existing key in its place and appends a new key at the end.
- `Catalog` (`catalog.dfy`): marker images, `createMarkerFromImage` with the image load as a parameter, the marker plan, and `Populate`. `Populate` is the catalog `registerMarkers` leaves behind.
- `Correlation` (`correlation.dfy`): `getMarkerIdByIndex` as a function of the key sequence. `Detections` is the specification of the calls one frame makes. The lemmas about it cover order, filtering, at most one call per result, and exact content.
- `Tracker` (`tracker.dfy`): the class `ARMarkerTracker` with the source's fields (`markers`, `session`, `viewerSpace`, `imageTracker`, `markerDetectionCallback`). It has the constructor, `Initialize`, `RegisterMarkers`, the `OnMarkerDetected` setter, `GetMarkerIdByIndex` and `Update`. `Update` is a loop proved against `Detections`.

The platform is abstracted as follows:

- Image loading is a `Loader`: a URL gives a bitmap or `None`.
- `session.requestImageTracker` is a `RequestFn`: a batch of tracked images gives a handle or `None`.
- A frame carries its result sequence and its `getPose` query. `getPose` is a partial function from (space, reference space) to an opaque matrix.
- Calling the callback is modelled as `Update` returning the sequence of calls it makes. Each call is `Call(callback, markerId, matrix)`, and `callback` identifies which function sat in the slot. `Update` has no `modifies` clause, so the verifier enforces that it changes no tracker state.

The code and the design description disagree on one point: a failed image load. The design says the catalog build aborts with no partial catalog. The code puts each marker in the map as soon as it loads, and catches the first failure without removing anything. The model follows the code. A failure at the k-th image leaves exactly the markers before it, and `initialize` still requests an image tracker for that partial, possibly empty, batch.

## Model

| member | source | states |
|---|---|---|
| OrderedMaps.Keys | js/ARMarkerTracker.js:115 | the key sequence has one key per entry, in insertion order |
| OrderedMaps.Values | js/ARMarkerTracker.js:24 | the value sequence has one value per entry, in insertion order |
| OrderedMaps.Set | js/ARMarkerTracker.js:38-46 | `Map.set`: an existing key keeps its position and a new key is appended at the end; the key then maps to the new value, every other key keeps its value, and distinct keys stay distinct |
| Catalog.CreateMarkerFromImage | js/ARMarkerTracker.js:55-79 | resolves iff the image loads, and then gives a record holding that bitmap and the requested width |
| Catalog.LoadedCount | js/ARMarkerTracker.js:34-52 | the number of markers that register is the position of the first image that fails: every earlier image loads, and the image at that position fails |
| Catalog.LoadedCountAtFailure | js/ARMarkerTracker.js:34-52 | if the k-th image fails and all earlier ones load, exactly k markers register |
| Catalog.PopulateExtends | js/ARMarkerTracker.js:34-52 | registering only adds: the earlier key sequence is a prefix of the later one, so what was inserted before a failure stays |
| Catalog.PopulateDistinct | js/ARMarkerTracker.js:38-46 | registering keeps the catalog's keys distinct |
| Catalog.PopulateKeysFrom | js/ARMarkerTracker.js:38-46 | every key after registering was already present or is one of the plan's ids |
| Catalog.LoadedEntriesAt | js/ARMarkerTracker.js:34-52 | the entries the loaded prefix contributes are one per marker up to the first failure, each with that marker's id, loaded bitmap and width |
| Catalog.SetNewKey | js/ARMarkerTracker.js:38-46 | setting a key the catalog does not yet hold appends that entry at the end |
| Catalog.PopulateAppends | js/ARMarkerTracker.js:34-52 | on a catalog holding none of the plan's ids, registering appends exactly the loaded prefix's entries, in plan order, after the earlier entries |
| Catalog.RegisteredEntries | js/ARMarkerTracker.js:34-52 | from an empty catalog, registering gives one entry per marker up to the first failure, each with its id, loaded bitmap and width |
| Catalog.RegisterOnEmpty | js/ARMarkerTracker.js:34-52 | from an empty catalog the keys are the prefix of marker1, marker2, marker3 up to the first failure; they are all three iff all three images load; a failure at position k leaves k entries; each entry holds its loaded bitmap and width 0.1 |
| Catalog.PopulateKeepsValid | js/ARMarkerTracker.js:34-52 | registering keeps the catalog a map whose keys are marker ids of the plan |
| Correlation.MarkerIdByIndex | js/ARMarkerTracker.js:114-116 | the id at the index in insertion order when 0 <= index < size and the id is non-empty; otherwise `None` (JavaScript `null`) |
| Correlation.DetectionsExact | js/ARMarkerTracker.js:94-110 | the k-th call comes from the result at a position `Sources[k]`; that result is tracked, has a known id, has a pose and meets a set callback; the call carries exactly that callback, id and matrix; the positions strictly increase, so calls follow result order with at most one per result; every such result is among them |
| Correlation.AtMostOnePerResult | js/ARMarkerTracker.js:94-110 | a frame makes no more calls than it has results |
| Correlation.DetectionsAppend | js/ARMarkerTracker.js:94-110 | processing results a then b makes a's calls followed by b's: results are handled in order and independently of one another |
| Correlation.SilentResult | js/ARMarkerTracker.js:99-109 | a result that is not `"tracked"`, has an index out of range, has no pose, or arrives with no callback set leaves the calls unchanged wherever it stands in the frame |
| Correlation.NothingToReport | js/ARMarkerTracker.js:99-107 | with no callback set, or no tracked result, a frame makes no call |
| Correlation.SecondMarkerScenario | js/ARMarkerTracker.js:94-116 | on the marker1..3 catalog, a tracked result at index 1 with pose M, followed by an untracked result at index 0, produce exactly one call: (marker2, M) |
| Tracker.ARMarkerTracker.constructor | js/ARMarkerTracker.js:5-11 | the catalog starts empty and session, viewer space, image tracker and callback start `null` |
| Tracker.ARMarkerTracker.Initialize | js/ARMarkerTracker.js:14-31 | records session and viewer space, registers the markers, and requests a tracker for the catalog's records in insertion order; the image tracker is set iff the request succeeds and otherwise keeps its earlier value; the callback is untouched |
| Tracker.ARMarkerTracker.RegisterMarkers | js/ARMarkerTracker.js:34-52 | sets marker1, marker2, marker3 in turn and stops at the first image that fails; on an empty catalog the keys become the prefix of the three ids up to that failure; only `markers` changes |
| Tracker.ARMarkerTracker.OnMarkerDetected | js/ARMarkerTracker.js:82-84 | the new callback replaces the old one (last writer wins) and nothing else changes |
| Tracker.ARMarkerTracker.GetMarkerIdByIndex | js/ARMarkerTracker.js:114-117 | a returned id is the key at that position of the catalog; on a valid catalog an id is returned exactly when 0 <= index < size |
| Tracker.ARMarkerTracker.Update | js/ARMarkerTracker.js:87-111 | no calls without an image tracker; otherwise exactly the calls `Detections` specifies for the frame's results, at most one per result; tracker state unchanged |
| Tracker.RepeatedUpdate | js/ARMarkerTracker.js:87-111 | two updates with the same frame make the same calls |
| Tracker.FailedRequestScenario | js/ARMarkerTracker.js:22-30 | when the tracker request fails, no image tracker is set and a later frame makes no call, whatever its results and even with a callback set |

## Left out

- Image decoding (`Image`, `onload`/`onerror`, drawing on a canvas) is browser I/O. It is the `Loader` parameter: a URL gives an opaque bitmap or fails. A loader is a function, so loading the same URL twice gives the same outcome.
- Promise scheduling in `initialize`, `registerMarkers` and `createMarkerFromImage` is not modelled. Each await is a sequential step that may fail. `requestImageTracker` both throwing and rejecting are the same `None`.
- `session.requestImageTracker`, `frame.getImageTrackingResults` and `frame.getPose` are platform calls. They are supplied as parameters: the `RequestFn`, the frame's result sequence and the frame's `getPose`. `ImageTracker` pairs the returned handle with the batch it was requested for.
- Pose matrices are floating-point data. They are an opaque `seq<real>` passed through unchanged. `pose.transform` is folded into `getPose` returning the matrix.
- `console.log` and `console.error` have no behavioural effect and are left out, as are the error messages of rejected loads.
- A result's `index` is an integer. JavaScript would also accept a fractional or non-numeric index, which the platform does not produce.
- The callback is modelled by its identity alone. What the callback itself does, and any re-entrant change it makes to the tracker during `update`, is not modelled.
