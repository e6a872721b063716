# Abandoned-object detector: a Dafny model of the `Detection` class

The program watches a video stream and reports objects that appear in the
scene and then stay still, such as a bag left on the floor. The first frame
becomes the reference. Every later frame is compared with it, and each
changed region (a contour) of at least a minimum area is handed to the
matching step.

The matching step keeps a table of tracked objects, keyed by ids that only
grow. A box within a tolerance of some known object, on each of x, y, w and
h, marks every such object as seen now. A box close to none becomes a new
object under the next id.

Once per frame, the analysis scans the table in key order:
- An object seen only briefly and then gone is queued for deletion (ephemeral).
- An object seen for a while but gone for more than twice that long is also
  queued (stale).
- An object seen for more than ten seconds is confirmed. The first time, its
  region of the undecorated frame is kept as a snapshot. When recognition is
  on, a remote service is then asked what the snapshot shows, and the first
  concept names become the object's labels. Every confirmed object is drawn
  on a summary canvas, at a running horizontal offset, with its labels under it.
- After the scan, every queued object is deleted.

The model has five modules:

- `Objects` holds the entities and the state invariants. `Wellformed` says
  table keys, key order and the id counter agree. `Once`, the recognition
  invariant, says recognition is requested at most once per id and only after
  a snapshot, and no object has more than six labels; it is kept whatever the
  clock does. `Timed` says every object's times are ordered and not later
  than the clock; it is kept only while the clock does not go back.
  `Healthy` is both.
- `Tracker` holds the matching step as functions on the whole state.
- `Lifecycle` holds the analysis:
  - the classification;
  - the recognition effect;
  - the canvas layout;
  - the object-by-object scan, as a transcript function (`ScanAll`);
  - the whole analysis as one function (`Analyse`), with lemmas tying the two
    together.
- `Pipeline` holds the frame loop over a finite stream.
- `Detector` holds the class `Detection`. Its fields are the table, the key
  order, the counter, the canvas and the current raw frame, plus two ghost
  fields: the recognition-request count and the clock. Each method of the
  class updates the fields in place and is proved to have exactly the effect
  of the matching spec function. Each one requires `Valid()` (the state is
  `Wellformed`) and ensures it again; the constructor establishes it.

Some of the code's behaviour is easy to misread; the model does what the
code does:
- The comments at lines 107 and 112 of `IA_Sciences/chapitre_6.py` speak of
  five labels. The label loop in `recognize_object` counts after appending
  and stops once the counter exceeds 5, so up to six labels are kept.
- The matching loop has no early exit. One box refreshes every object it is
  close to.
- An object's box is never moved; only its last-seen time changes.
- A stale object is also confirmed, so the analysis that deletes it still
  draws it first. If it has no snapshot yet, it is also captured then (and
  recognised if recognition is on); if it has one, it is left as it is.

## Model

| member | source | states |
|---|---|---|
| `Objects.Without` | IA_Sciences/chapitre_6.py:388-390 | Deleting keys keeps the remaining keys in their insertion order: exactly the old keys outside the deleted set, still ascending |
| `Objects.WithoutWithout` | IA_Sciences/chapitre_6.py:388-390 | Deleting the queued keys one after another equals deleting them all at once |
| `Tracker.Matches` | IA_Sciences/chapitre_6.py:245-248 | Definition: a box matches an object when each of x, y, w and h differs from the object's by at most the movement threshold |
| `Tracker.Refresh` | IA_Sciences/chapitre_6.py:240-252 | Definition: every object the box matches gets last-seen time `now`; every other object is kept as it is |
| `Tracker.Track` | IA_Sciences/chapitre_6.py:228-267 | Definition of one matching call: if some object matches, refresh the matching ones; otherwise add the box under counter + 1, with no snapshot or labels, first and last seen now; the clock moves to `now` |
| `Tracker.TrackAll` | IA_Sciences/chapitre_6.py:173-186 | Definition: the frame's contours in order, those below the minimum area skipped, each other one one matching call |
| `Tracker.TrackRefreshes` | IA_Sciences/chapitre_6.py:236-252 | A box close to some object sets `lastSeen := now` on exactly the objects it matches. The box, first-seen time, snapshot, labels, key order, counter and canvas are unchanged |
| `Tracker.TrackCreates` | IA_Sciences/chapitre_6.py:254-267 | A box close to no object adds one entry under counter + 1, created and last seen now, no snapshot, no labels; that id is new and was never sent for recognition. Key order gains the id at the end; canvas and request counts are unchanged |
| `Tracker.TrackWellformed` | IA_Sciences/chapitre_6.py:228-267 | The matching step keeps keys, key order and the counter consistent, and never lowers the counter |
| `Tracker.TrackHealthy` | IA_Sciences/chapitre_6.py:228-267 | With a clock that does not go back, the matching step keeps the lifecycle invariant |
| `Tracker.TrackTwiceSameObject` | IA_Sciences/chapitre_6.py:244-252 | Since a match does not move the object's box, a second box close to the same object still matches it: no object is created and its last-seen time is now |
| `Tracker.TrackOnce` | IA_Sciences/chapitre_6.py:228-267 | Whatever the clock, the matching step keeps the recognition invariant: a refreshed object keeps its snapshot and labels, and a new object has neither, under an id never sent for recognition |
| `Tracker.TrackAllOnce` | IA_Sciences/chapitre_6.py:173-186 | Whatever the clock, a frame's contours keep the recognition invariant |
| `Tracker.TrackAllInvariant` | IA_Sciences/chapitre_6.py:173-186 | A frame's contours keep the table's shape and, with a monotone clock, the lifecycle invariant. The clock moves to `now` exactly when some contour was large enough |
| `Tracker.TrackAllCreatesAtMost` | IA_Sciences/chapitre_6.py:173-186 | Each contour creates at most one object and small ones none. A frame with no large contour leaves the state unchanged |
| `Lifecycle.Ephemeral` | IA_Sciences/chapitre_6.py:313 | Definition: gone for more than 5 seconds after being seen for at most 10 |
| `Lifecycle.Stale` | IA_Sciences/chapitre_6.py:319 | Definition: seen for more than 10 seconds and gone for more than twice as long as it was seen |
| `Lifecycle.Confirmed` | IA_Sciences/chapitre_6.py:324 | Definition: seen for more than 10 seconds |
| `Lifecycle.Recognized` | IA_Sciences/chapitre_6.py:102-115 | Definition: a failure status leaves the object as it is; a success appends the answer's first labels |
| `Lifecycle.Recognize` | IA_Sciences/chapitre_6.py:98-115 | Definition of one recognition call: one request counted for the id, and that object replaced by its `Recognized` form |
| `Lifecycle.Visit` | IA_Sciences/chapitre_6.py:324-347 | Definition: a confirmed object without a snapshot gets the region of its box in the current raw frame, then its recognition answer when recognition is on; any other object is left as it is |
| `Lifecycle.Layout` | IA_Sciences/chapitre_6.py:350-376 | Definition of the canvas: for each confirmed object in key order, a tile at the running offset with its snapshot and label captions, the offset then moving past its slot |
| `Lifecycle.ScanOne` | IA_Sciences/chapitre_6.py:293-376 | Definition of one loop-body step: queue the object if ephemeral, queue it if stale, and if confirmed visit it, draw it and advance the offset |
| `Lifecycle.ScanAll` | IA_Sciences/chapitre_6.py:290-376 | Definition: `ScanOne` over the given ids, in order |
| `Lifecycle.Analyse` | IA_Sciences/chapitre_6.py:270-390 | Definition of one analysis: every object visited, the canvas laid out from scratch, the doomed objects removed from table and key order, one request per capture when recognition is on, the clock at `now` |
| `Lifecycle.Classification` | IA_Sciences/chapitre_6.py:313-324 | No object is both ephemeral and stale, so none is queued twice. A stale object is confirmed and an ephemeral one is not |
| `Lifecycle.Labels` | IA_Sciences/chapitre_6.py:106-115 | The labels a successful answer yields are its first min(n, 6) concepts, in order |
| `Lifecycle.RecognizeEffect` | IA_Sciences/chapitre_6.py:98-115 | A request is counted whatever the answer. A failure status changes no object. A success appends the first min(n, 6) concepts to that object's labels. No other object changes |
| `Lifecycle.VisitCapturesOnce` | IA_Sciences/chapitre_6.py:331-347 | A visit keeps the box and times, and leaves an object that has a snapshot untouched. A snapshot appears exactly for confirmed objects, taken from the current raw frame at the object's box. Labels change only when a capture triggers recognition. A second visit changes nothing |
| `Lifecycle.VisitKeepsLabelBound` | IA_Sciences/chapitre_6.py:334-347 | An object without a snapshot has no labels, so the one recognition it gets leaves it with at most six |
| `Lifecycle.VisitSettles` | IA_Sciences/chapitre_6.py:313-347 | A surviving object, once visited, is neither doomed nor left to capture |
| `Lifecycle.QueuedExactlyDoomed` | IA_Sciences/chapitre_6.py:312-321 | The deletion list holds exactly the ephemeral and stale objects, in ascending order (so each id once) |
| `Lifecycle.RecognitionsExact` | IA_Sciences/chapitre_6.py:334-347 | Recognition is requested exactly for the objects captured in this scan when recognition is on, each once, in scan order |
| `Lifecycle.SlotWidth` | IA_Sciences/chapitre_6.py:371-376 | The offset advances by the padding plus the object's width, or plus 100 when the width is below 100 |
| `Lifecycle.Captions` | IA_Sciences/chapitre_6.py:360-369 | Label k of an object of height h is drawn at 40 + h + 30k, in label order, one caption per label |
| `Lifecycle.LayoutSpacing` | IA_Sciences/chapitre_6.py:350-376 | The first tile is at 0, and each tile starts where the previous one's slot ends. Tile k therefore starts at least 110k to the right, and tiles never overlap |
| `Lifecycle.LayoutTilesConfirmed` | IA_Sciences/chapitre_6.py:324-369 | Every tile on the canvas is a confirmed object of the table, shown with its snapshot and all its labels |
| `Lifecycle.LayoutCoversConfirmed` | IA_Sciences/chapitre_6.py:324-376 | Every confirmed object is drawn |
| `Lifecycle.LayoutInScanOrder` | IA_Sciences/chapitre_6.py:290-376 | Tiles appear in key order, so no object is drawn twice |
| `Lifecycle.ScanAllVisits` | IA_Sciences/chapitre_6.py:290-347 | After scanning distinct ids, the table holds each scanned object as its visit left it, and every other object unchanged |
| `Lifecycle.ScanAllQueues` | IA_Sciences/chapitre_6.py:290-321 | The deletion list the scan builds is the ephemeral/stale queue of the table it started from |
| `Lifecycle.ScanAllRequests` | IA_Sciences/chapitre_6.py:290-347 | The scan requests recognition for exactly the objects it captures, as judged on the table it started from |
| `Lifecycle.ScanOneRequests` | IA_Sciences/chapitre_6.py:334-347 | One scan step requests recognition only when it captures a not-yet-visited object with recognition on |
| `Lifecycle.ScanAllDraws` | IA_Sciences/chapitre_6.py:324-376 | Starting on an empty canvas at offset 0, the scan draws the layout of the visited table and ends at that layout's offset |
| `Lifecycle.AnalyseRemovesDoomed` | IA_Sciences/chapitre_6.py:270-390 | An analysis removes exactly the ephemeral and stale objects from the table and from the key order. It keeps every survivor as its visit left it, and keeps the counter |
| `Lifecycle.AnalyseCountsRecognitions` | IA_Sciences/chapitre_6.py:334-347 | An analysis adds one request for each object it captures when recognition is on, and none for any other id |
| `Lifecycle.AnalyseWellformed` | IA_Sciences/chapitre_6.py:388-390 | An analysis keeps keys, key order and the counter consistent |
| `Lifecycle.AnalyseOnce` | IA_Sciences/chapitre_6.py:270-390 | Whatever the clock, an analysis keeps the recognition invariant: no id is ever sent for recognition twice, only ids already handed out are, an object without a snapshot has no labels, and no object has more than six |
| `Lifecycle.AnalyseHealthy` | IA_Sciences/chapitre_6.py:270-390 | With a clock that does not go back, an analysis keeps the lifecycle invariant: the recognition invariant, and times ordered up to the clock |
| `Lifecycle.AnalyseSettles` | IA_Sciences/chapitre_6.py:270-390 | After an analysis at time t, no survivor is doomed at t or waiting to be captured |
| `Lifecycle.SettledRecognizesNothing` | IA_Sciences/chapitre_6.py:334-347 | On a settled table the scan requests no recognition |
| `Lifecycle.SettledIsFixed` | IA_Sciences/chapitre_6.py:270-390 | On a settled table, an analysis at the same time only redraws the canvas |
| `Lifecycle.AnalyseIdempotent` | IA_Sciences/chapitre_6.py:270-390 | A second analysis at the same time captures, requests and deletes nothing, whatever the frame, the setting and the service |
| `Lifecycle.ScanQueueDeletable` | IA_Sciences/chapitre_6.py:277-390 | After the scan, the deletion list ascends (no id twice), every id on it is still a key, and it holds exactly the doomed ids, so no deletion fails |
| `Lifecycle.ScanIsAnalyse` | IA_Sciences/chapitre_6.py:277-390 | The object-by-object scan followed by its deletions has exactly the effect `Analyse` describes |
| `Lifecycle.ScanThenDelete` | IA_Sciences/chapitre_6.py:388-390 | Deleting the scan's queue from its table and key order gives the state `Analyse` describes, and that state is well formed |
| `Pipeline.Cycle` | IA_Sciences/chapitre_6.py:157-191 | Definition of one frame after the reference: `TrackAll` of its contours, then `Analyse` at its time and raw frame |
| `Pipeline.Run` | IA_Sciences/chapitre_6.py:124-191 | Definition of the loop: the first frame only becomes the reference, and each later frame is one `Cycle` |
| `Pipeline.Reference` | IA_Sciences/chapitre_6.py:124-155 | The reference is the first frame of the stream, and there is none exactly when the stream is empty |
| `Pipeline.RunStart` | IA_Sciences/chapitre_6.py:152-155 | The reference frame is not analysed: it leaves the state untouched |
| `Pipeline.RunStep` | IA_Sciences/chapitre_6.py:157-191 | Each later frame adds one pass: its contours go to the matching step, then one analysis runs |
| `Pipeline.CycleInvariant` | IA_Sciences/chapitre_6.py:173-191 | One pass keeps the table's shape, ends with the clock at the frame's time, never lowers the counter, and keeps the lifecycle invariant when the clock does not go back |
| `Pipeline.CyclesInvariant` | IA_Sciences/chapitre_6.py:127-191 | Any number of passes keeps the table's shape. With frame times that never go back, it keeps the lifecycle invariant |
| `Pipeline.RunInvariant` | IA_Sciences/chapitre_6.py:124-191 | The whole loop keeps the table's shape and, under a monotone clock, the lifecycle invariant |
| `Pipeline.CycleOnce` | IA_Sciences/chapitre_6.py:173-191 | Whatever the frame's time, one pass keeps the recognition invariant |
| `Pipeline.CyclesOnce` | IA_Sciences/chapitre_6.py:127-191 | Whatever the frame times, any number of passes keep the recognition invariant: no id is ever sent for recognition twice and no object ever holds more than six labels |
| `Pipeline.RunOnce` | IA_Sciences/chapitre_6.py:124-191 | Whatever the clock, the whole loop keeps the recognition invariant |
| `Pipeline.TrackKeepsRetired` | IA_Sciences/chapitre_6.py:254-256 | The matching step never revives a removed id, because new ids lie above every id ever handed out |
| `Pipeline.TrackAllKeepsRetired` | IA_Sciences/chapitre_6.py:173-186 | No contour of a frame revives a removed id |
| `Pipeline.CyclesKeepRetired` | IA_Sciences/chapitre_6.py:127-191 | Once deleted, an id never reappears in the table in any later frame |
| `Pipeline.QuietFrame` | IA_Sciences/chapitre_6.py:173-191 | A frame with no large contour still runs the analysis, which ages the table |
| `Detector.LabelCaptions` | IA_Sciences/chapitre_6.py:362-369 | The label-drawing loop produces `Captions` of the labels: label k at 40 + h + 30k |
| `Detector.MarkSeen` | IA_Sciences/chapitre_6.py:236-252 | The matching loop over the keys in order returns the table with every matching object refreshed, and `found` exactly when some object matched |
| `Detector.DeleteQueued` | IA_Sciences/chapitre_6.py:388-390 | The deletion loop, with every queued id a key and none queued twice, removes exactly the queued ids from the table and from the key order, and no deletion misses its key |
| `Detector.Detection.constructor` | IA_Sciences/chapitre_6.py:23-86 | The settings are stored; the table, key order and canvas start empty with counter 0; the state is well formed and healthy |
| `Detector.Detection.UpdateObjectsList` | IA_Sciences/chapitre_6.py:228-267 | The new state is `Track` of the old one, and stays well formed |
| `Detector.Detection.RecognizeObject` | IA_Sciences/chapitre_6.py:91-115 | The new state is `Recognize` of the old one: the request is counted, and on success up to six concepts are appended to that object's labels. It keeps the table's shape |
| `Detector.Detection.AnalyseObjects` | IA_Sciences/chapitre_6.py:270-390 | The new state is `Analyse` of the old one at the raw frame, and stays well formed |
| `Detector.Detection.ScanTable` | IA_Sciences/chapitre_6.py:277-386 | The scan loop leaves table, deletion list, requests, canvas and offset exactly as `ScanAll` over the key order says, and keeps the state well formed |
| `Detector.Detection.ScanObject` | IA_Sciences/chapitre_6.py:293-376 | The loop body for one id performs one `ScanOne` step on the table, deletion list, requests, canvas and offset, keeps the keys and keeps the state well formed |
| `Detector.Detection.CaptureObject` | IA_Sciences/chapitre_6.py:331-347 | A confirmed object becomes its `Visit`: captured when it had no snapshot, with one request counted when recognition is on. The state stays well formed |
| `Detector.Detection.HandleFrame` | IA_Sciences/chapitre_6.py:157-191 | A frame after the reference performs one `Cycle`: large contours go to the matching step in order, then the analysis runs at the frame's time |
| `Detector.Detection.DetectObjects` | IA_Sciences/chapitre_6.py:120-191 | Over a finite stream, returns the first frame as reference, ends in `Run` of the initial state, and keeps the table's shape. Under a monotone clock it keeps the lifecycle invariant, and under any clock the recognition invariant |

## Left out

- Image processing is not modelled: grey-scale conversion, blurring,
  differencing against the reference, thresholding, dilation, contour search
  and resizing. Each frame arrives as a list of contour boxes with their areas.
  A box has whole-pixel coordinates, as the bounding-box computation returns.
  A contour's area and the minimum object area are real numbers, so the
  comparison at line 175 is modelled exactly, fractional minimum included.
- The movement threshold is an integer. The box coordinates are whole
  numbers, so a fractional threshold would act as its floor in the tests at
  lines 245-248; such a threshold is not modelled.
- Drawing on the main frame and the display windows are not modelled: the
  rectangles and the id/time captions (lines 381-386), and `imshow` and
  `moveWindow`. The found-objects canvas is modelled as a list of tiles and
  captions, not as pixels. The 500x1500 canvas size is not modelled, so a
  canvas slice past the right edge, which makes the NumPy assignment fail,
  is not captured.
- On the recognition path, writing the snapshot to a file under the archive
  folder and the Clarifai client are not modelled. The service is a function
  from snapshot to prediction, fixed when the object is built.
- Status messages printed to the console are not modelled.
- Wall-clock time is not read by the model: each matching call and each
  analysis receives one time `now` in whole seconds, where the code reads
  `time.time()` several times and gets floats. With integer times, `int()`
  truncating a float difference (lines 297 and 303) has no effect here.
- The unused `time_since_first_seen` (line 300) is not modelled.
- The endless capture loop and quitting on the `q` key are not modelled: the
  model runs over a finite stream.
- `Detector.Detection.RecognizeObject` requires `id` to be a key even when the
  answer is a failure (besides the class invariant every method requires). The code only indexes the table on success, but its
  only caller always passes a key.
- `Detector.Detection.AnalyseObjects` requires the raw frame to be set. In the
  code it is set by the loop before any analysis runs.
- The `__main__` block and the `get_video` Kinect capture function are not
  modelled.
