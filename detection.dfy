/** The `Detection` object: the tracked-object table and the found-objects
    canvas it updates in place, the matching step called for every contour,
    the recognition request, the lifecycle analysis run once per frame, and
    the frame loop. Each method is proved to have exactly the effect the
    specification modules give it. */
module Detector {
  import opened Objects
  import opened Tracker
  import opened Lifecycle
  import opened Pipeline

  /** The labels of one object, drawn one under the other below its snapshot. */
  method LabelCaptions(labels: seq<string>, h: int) returns (captions: seq<Caption>)
    ensures captions == Captions(labels, h)
  {
    captions := [];
    var offsetLabel := LABEL_BASE + h;
    var i := 0;
    while i < |labels|
      invariant 0 <= i <= |labels|
      invariant captions == Captions(labels[..i], h)
      invariant offsetLabel == LABEL_BASE + h + LABEL_STEP * i
    {
      assert labels[..i + 1][..i] == labels[..i];
      captions := captions + [Caption(labels[i], offsetLabel)];
      offsetLabel := offsetLabel + LABEL_STEP;
      i := i + 1;
    }
    assert labels[..i] == labels;
  }

  /** The matching loop of the matching step, over the table's keys in
      order: every object within `t` of the box on all four coordinates is
      marked seen at `now`, and `found` tells whether there was one. */
  method MarkSeen(objects: map<nat, TrackedObject>, order: seq<nat>, b: Box, t: int, now: int)
    returns (table: map<nat, TrackedObject>, found: bool)
    requires forall id :: id in objects <==> id in order
    ensures table == Refresh(objects, b, t, now)
    ensures found == AnyMatch(objects, b, t)
  {
    table := objects;
    found := false;
    ghost var done: set<nat> := {};
    var i := 0;
    while i < |order|
      invariant 0 <= i <= |order|
      invariant table.Keys == objects.Keys && done <= objects.Keys
      invariant forall j :: 0 <= j < i ==> order[j] in done
      invariant forall id :: id in objects ==>
        table[id] == if id in done && Matches(objects[id], b, t) then objects[id].(lastSeen := now) else objects[id]
      invariant found ==> AnyMatch(objects, b, t)
      invariant !found ==> forall id :: id in done ==> !Matches(objects[id], b, t)
    {
      var id := order[i];
      var obj := table[id];
      if Matches(obj, b, t) {
        found := true;
        table := table[id := obj.(lastSeen := now)];
      }
      done := done + {id};
      i := i + 1;
    }
    assert done == objects.Keys by {
      forall id | id in objects ensures id in done {
        var j :| 0 <= j < |order| && order[j] == id;
      }
    }
  }

  /** The deletion loop of the analysis: every queued id leaves the table
      and its key order. Deleting a key that is not in the table fails, so
      each queued id must be a key, and none may be queued twice. */
  method DeleteQueued(objects: map<nat, TrackedObject>, order: seq<nat>, queue: seq<nat>)
    returns (table: map<nat, TrackedObject>, keys: seq<nat>)
    requires forall k :: 0 <= k < |queue| ==> queue[k] in objects
    requires forall j, k :: 0 <= j < k < |queue| ==> queue[j] != queue[k]
    ensures table == objects - Members(queue)
    ensures keys == Without(order, Members(queue))
  {
    table, keys := objects, order;
    ghost var removed: set<nat> := {};
    WithoutNothing(order);
    var k := 0;
    while k < |queue|
      invariant 0 <= k <= |queue|
      invariant removed == Members(queue[..k])
      invariant table == objects - removed && keys == Without(order, removed)
    {
      var id := queue[k];
      assert queue[..k + 1] == queue[..k] + [id];
      MembersAppend(queue[..k], id);
      RemoveOneMore(objects, removed, id);
      assert id in table by {
        forall j | 0 <= j < k ensures queue[..k][j] != id {
          assert queue[..k][j] == queue[j];
        }
      }
      table := table - {id};
      WithoutWithout(order, removed, {id});
      keys := Without(keys, {id});
      removed := removed + {id};
      k := k + 1;
    }
    assert queue[..k] == queue;
  }

  class Detection {
    const minObjectArea: real
    const objectMovementThreshold: int
    const doRecognize: bool
    /** The recognition service: the concepts it sees in a snapshot. */
    const service: Snapshot -> Prediction

    /** The tracked-object table, and its keys in insertion order. */
    var objects: map<nat, TrackedObject>
    var order: seq<nat>
    var lastObjectId: nat
    /** The found-objects canvas. */
    var summary: seq<Tile>
    /** The undecorated copy of the current frame; unset until the loop runs. */
    var rawFrame: Option<FrameId>
    /** How many times recognition was requested for each id. */
    ghost var calls: multiset<nat>
    /** The time of the latest call. */
    ghost var clock: int

    ghost function State(): TrackerState
      reads this
    {
      TrackerState(objects, order, lastObjectId, summary, calls, clock)
    }

    ghost predicate Valid()
      reads this
    {
      Wellformed(State())
    }

    /** An empty table, an empty canvas, and no id handed out yet. */
    constructor (service: Snapshot -> Prediction, ghost start: int,
                 minObjectArea: real := DEFAULT_MIN_OBJECT_AREA,
                 objectMovementThreshold: int := DEFAULT_MOVEMENT_THRESHOLD,
                 doRecognize: bool := false)
      ensures this.service == service && this.minObjectArea == minObjectArea
      ensures this.objectMovementThreshold == objectMovementThreshold && this.doRecognize == doRecognize
      ensures State() == TrackerState(map[], [], 0, [], multiset{}, start) && rawFrame == None
      ensures Valid() && Healthy(State())
    {
      this.service := service;
      this.minObjectArea := minObjectArea;
      this.objectMovementThreshold := objectMovementThreshold;
      this.doRecognize := doRecognize;
      objects := map[];
      order := [];
      lastObjectId := 0;
      summary := [];
      rawFrame := None;
      calls := multiset{};
      clock := start;
    }

    /** One contour's box at time `now`: every object it matches is marked
        seen; if it matches none, it becomes a new object under the next id. */
    method UpdateObjectsList(x: int, y: int, w: int, h: int, now: int)
      requires Valid()
      modifies this
      ensures Valid() && rawFrame == old(rawFrame)
      ensures State() == Track(old(State()), Box(x, y, w, h), objectMovementThreshold, now)
    {
      ghost var s := State();
      var b := Box(x, y, w, h);
      var table, found := MarkSeen(objects, order, b, objectMovementThreshold, now);
      TrackWellformed(s, b, objectMovementThreshold, now);
      ghost var r := Track(s, b, objectMovementThreshold, now);
      if found {
        objects, clock := table, now;
        assert State() == r;
      } else {
        RefreshNothing(s.objects, b, objectMovementThreshold, now);
        lastObjectId := lastObjectId + 1;
        objects, order, clock := table[lastObjectId := TrackedObject(b, now, now, None, [])], order + [lastObjectId], now;
        assert State() == r;
      }
    }

    /** Asks the service about the snapshot of object `id`; on success the
        first concepts are appended to that object's labels, the loop stopping
        once its counter exceeds LABEL_CUTOFF. */
    method RecognizeObject(id: nat, snap: Snapshot)
      requires Valid() && id in objects
      modifies this
      ensures Valid()
      ensures rawFrame == old(rawFrame)
      ensures State() == Recognize(old(State()), id, service(snap))
    {
      ghost var s := State();
      var result := service(snap);
      calls := calls + multiset{id};
      if result.statusCode != SUCCESS_CODE {
        assert objects == s.objects[id := Recognized(s.objects[id], result)];
        return;
      }
      var concepts := result.concepts;
      var idx := 0;
      while idx < |concepts|
        invariant 0 <= idx <= |concepts| && idx <= LABEL_CUTOFF
        invariant id in objects && objects == s.objects[id := objects[id]]
        invariant objects[id] == s.objects[id].(recognition := s.objects[id].recognition + concepts[..idx])
        invariant State() == s.(objects := objects, calls := s.calls + multiset{id}) && rawFrame == old(rawFrame)
      {
        assert concepts[..idx + 1] == concepts[..idx] + [concepts[idx]];
        objects := objects[id := objects[id].(recognition := objects[id].recognition + [concepts[idx]])];
        idx := idx + 1;
        if idx > LABEL_CUTOFF {
          break;
        }
      }
      assert concepts[..idx] == Labels(result) by {
        if idx == |concepts| {
          assert concepts[..idx] == concepts;
        }
      }
      assert objects[id] == Recognized(s.objects[id], result);
      assert objects == s.objects[id := Recognized(s.objects[id], result)];
    }

    /** One lifecycle scan at time `now`, in key order: queue the ephemeral
        and stale objects, capture each confirmed object that has no snapshot
        yet from the raw frame (asking for recognition when that is on), and
        redraw the canvas with every confirmed object; then delete the queued
        ones. The queue never holds an id twice, so no deletion misses. */
    method AnalyseObjects(now: int)
      requires Valid() && rawFrame.Some?
      modifies this
      ensures Valid() && rawFrame == old(rawFrame)
      ensures State() == Analyse(old(State()), now, rawFrame.value, doRecognize, service)
    {
      ghost var s := State();
      var frame := rawFrame.value;
      var objectsToDel, offsetDisplay := ScanTable(now, frame);
      ghost var c := ScanOrder(s, now, frame, doRecognize, service);
      ScanQueueDeletable(s, now, frame, doRecognize, service);
      assert forall k :: 0 <= k < |objectsToDel| ==> objectsToDel[k] in objects by {
        forall k | 0 <= k < |objectsToDel| ensures objectsToDel[k] in objects {
          assert objectsToDel[k] in Members(objectsToDel);
        }
      }
      var table, keys := DeleteQueued(objects, order, objectsToDel);
      ScanThenDelete(s, now, frame, doRecognize, service, table, keys);
      assert summary == c.tiles && calls == c.calls;
      objects, order, clock := table, keys, now;
      assert State() == TrackerState(table, keys, s.lastObjectId, c.tiles, c.calls, now);
    }

    /** The scan loop of the analysis: every key in order, from an empty
        deletion list, an empty canvas and offset 0. */
    method ScanTable(now: int, frame: FrameId) returns (objectsToDel: seq<nat>, offsetDisplay: int)
      requires Valid()
      modifies this
      ensures Valid()
      ensures Scan(objects, objectsToDel, calls, summary, offsetDisplay)
        == ScanOrder(old(State()), now, frame, doRecognize, service)
      ensures order == old(order) && lastObjectId == old(lastObjectId) && clock == old(clock) && rawFrame == old(rawFrame)
    {
      ghost var s := State();
      ghost var start := Scan(s.objects, [], s.calls, [], 0);
      objectsToDel := [];
      summary := [];
      offsetDisplay := 0;
      var i := 0;
      while i < |order|
        invariant 0 <= i <= |order|
        invariant Valid()
        invariant order == s.order && lastObjectId == s.lastObjectId && clock == s.clock && rawFrame == old(rawFrame)
        invariant objects.Keys == s.objects.Keys
        invariant Scan(objects, objectsToDel, calls, summary, offsetDisplay)
          == ScanAll(order[..i], start, now, frame, doRecognize, service)
      {
        assert order[..i + 1][..i] == order[..i];
        objectsToDel, offsetDisplay := ScanObject(order[i], now, frame, objectsToDel, offsetDisplay);
        i := i + 1;
      }
      assert order[..i] == s.order;
    }

    /** The body of the scan for object `id`: queue it if it is ephemeral,
        queue it if it is stale, and if it is confirmed, capture it when it has
        no snapshot yet (asking for recognition when that is on) and draw it
        at the running offset, which then moves past its slot. */
    method ScanObject(id: nat, now: int, frame: FrameId, objectsToDel: seq<nat>, offsetDisplay: int)
      returns (queue: seq<nat>, offset: int)
      requires Valid() && id in objects
      modifies this
      ensures Valid()
      ensures Scan(objects, queue, calls, summary, offset)
        == ScanOne(Scan(old(objects), objectsToDel, old(calls), old(summary), offsetDisplay),
                   id, now, frame, doRecognize, service)
      ensures objects.Keys == old(objects).Keys
      ensures order == old(order) && lastObjectId == old(lastObjectId) && clock == old(clock) && rawFrame == old(rawFrame)
    {
      ghost var c := Scan(objects, objectsToDel, calls, summary, offsetDisplay);
      queue, offset := objectsToDel, offsetDisplay;
      var obj := objects[id];
      if Ephemeral(obj, now) {
        queue := queue + [id];
      }
      if Stale(obj, now) {
        queue := queue + [id];
      }
      assert queue == c.queue + (if Ephemeral(obj, now) then [id] else []) + (if Stale(obj, now) then [id] else []);
      if Confirmed(obj) {
        CaptureObject(id, frame);
        obj := objects[id];
        assert obj == Visit(c.objects[id], frame, doRecognize, service);
        var captions := LabelCaptions(obj.recognition, obj.box.h);
        summary := summary + [Tile(id, offset, obj.img, captions)];
        offset := offset + SlotWidth(obj.box.w);
      }
      assert Scan(objects, queue, calls, summary, offset) == ScanOne(c, id, now, frame, doRecognize, service);
    }

    /** The capture step for a confirmed object: an object without a snapshot
        gets the region of its box in the raw frame, and recognition is asked
        for when that is on; an object that has one is left as it is. */
    method CaptureObject(id: nat, frame: FrameId)
      requires Valid() && id in objects && Confirmed(objects[id])
      modifies this
      ensures Valid()
      ensures objects == old(objects)[id := Visit(old(objects)[id], frame, doRecognize, service)]
      ensures calls == old(calls) + if doRecognize && old(objects)[id].img.None? then multiset{id} else multiset{}
      ensures order == old(order) && lastObjectId == old(lastObjectId) && clock == old(clock)
      ensures summary == old(summary) && rawFrame == old(rawFrame)
    {
      var obj := objects[id];
      if obj.img.None? {
        var snap := Snapshot(frame, obj.box);
        objects := objects[id := obj.(img := Some(snap))];
        if doRecognize {
          RecognizeObject(id, snap);
        }
      } else {
        assert objects == old(objects)[id := obj];
      }
    }

    /** The frame loop over a finite stream: the first frame becomes the
        reference; each later frame sends its contours of at least the
        minimum area to the matching step, in order, then runs one analysis. */
    method DetectObjects(stream: seq<FrameInput>) returns (reference: Option<FrameId>)
      requires Valid()
      modifies this
      ensures Valid() && reference == Reference(stream)
      ensures State() == Run(old(State()), stream, minObjectArea, objectMovementThreshold, doRecognize, service)
      ensures rawFrame == if stream == [] then old(rawFrame) else Some(stream[|stream| - 1].frame)
      ensures Healthy(old(State())) && stream != [] && Clocked(stream[1..], old(clock)) ==> Healthy(State())
      ensures Once(old(State())) ==> Once(State())
    {
      ghost var s0 := State();
      reference := None;
      var i := 0;
      while i < |stream|
        invariant 0 <= i <= |stream|
        invariant Valid() && reference == if i == 0 then None else Some(stream[0].frame)
        invariant State() == Run(s0, stream[..i], minObjectArea, objectMovementThreshold, doRecognize, service)
        invariant rawFrame == if i == 0 then old(rawFrame) else Some(stream[i - 1].frame)
      {
        var f := stream[i];
        rawFrame := Some(f.frame);
        if reference.None? {
          reference := Some(f.frame);
          RunStart(s0, stream, minObjectArea, objectMovementThreshold, doRecognize, service);
        } else {
          HandleFrame(f);
          RunStep(s0, stream, i, minObjectArea, objectMovementThreshold, doRecognize, service);
        }
        i := i + 1;
      }
      assert stream[..i] == stream;
      RunInvariant(s0, stream, minObjectArea, objectMovementThreshold, doRecognize, service);
      if Once(s0) {
        RunOnce(s0, stream, minObjectArea, objectMovementThreshold, doRecognize, service);
      }
    }

    /** The loop body for a frame after the reference: each contour of at
        least the minimum area goes to the matching step, in order, and then
        the analysis runs at the frame's time. */
    method HandleFrame(f: FrameInput)
      requires Valid() && rawFrame == Some(f.frame)
      modifies this
      ensures Valid() && rawFrame == old(rawFrame)
      ensures State() == Cycle(old(State()), f, minObjectArea, objectMovementThreshold, doRecognize, service)
    {
      ghost var before := State();
      var k := 0;
      while k < |f.boxes|
        invariant 0 <= k <= |f.boxes|
        invariant Valid() && rawFrame == Some(f.frame)
        invariant State() == TrackAll(before, f.boxes[..k], minObjectArea, objectMovementThreshold, f.now)
      {
        assert f.boxes[..k + 1][..k] == f.boxes[..k];
        var c := f.boxes[k];
        if c.area >= minObjectArea {
          UpdateObjectsList(c.box.x, c.box.y, c.box.w, c.box.h, f.now);
        }
        k := k + 1;
      }
      assert f.boxes[..k] == f.boxes;
      AnalyseObjects(f.now);
    }
  }
}
