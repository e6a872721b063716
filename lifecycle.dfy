/** The per-cycle lifecycle scan: each tracked object is judged ephemeral,
    stale or confirmed; a confirmed object is captured once (and possibly sent
    for recognition) and drawn on the summary canvas; ephemeral and stale ones
    are queued and removed after the scan. */
module Lifecycle {
  import opened Objects

  const OBJECT_TOO_YOUNG_TIME_MIN: int := 5   // seconds
  const OBJECT_TOO_YOUNG_TIME_MAX: int := 10  // seconds
  const OBJECT_HIDDEN_FACTOR: int := 2
  const PADDING: int := 10
  const MIN_SLOT_WIDTH: int := 100
  const LABEL_BASE: int := 40
  const LABEL_STEP: int := 30
  const SUCCESS_CODE: int := 10000

  function Seen(o: TrackedObject): int
  {
    o.lastSeen - o.firstSeen
  }

  function SinceLast(o: TrackedObject, now: int): int
  {
    now - o.lastSeen
  }

  /** Gone for a while after being seen only briefly. */
  predicate Ephemeral(o: TrackedObject, now: int)
  {
    SinceLast(o, now) > OBJECT_TOO_YOUNG_TIME_MIN && Seen(o) <= OBJECT_TOO_YOUNG_TIME_MAX
  }

  /** Seen long enough to matter, but gone for more than twice that long. */
  predicate Stale(o: TrackedObject, now: int)
  {
    Seen(o) > OBJECT_TOO_YOUNG_TIME_MAX && SinceLast(o, now) > OBJECT_HIDDEN_FACTOR * Seen(o)
  }

  /** Seen long enough to be captured and drawn (even if also stale). */
  predicate Confirmed(o: TrackedObject)
  {
    Seen(o) > OBJECT_TOO_YOUNG_TIME_MAX
  }

  predicate Doomed(o: TrackedObject, now: int)
  {
    Ephemeral(o, now) || Stale(o, now)
  }

  /** An object is never both ephemeral and stale, so it is queued for deletion
      at most once; a stale object is always also confirmed. */
  lemma Classification(o: TrackedObject, now: int)
    ensures !(Ephemeral(o, now) && Stale(o, now))
    ensures Stale(o, now) ==> Confirmed(o)
    ensures Ephemeral(o, now) ==> !Confirmed(o)
  {
  }

  // ---------------------------------------------------------------- recognition

  /** The labels taken from a successful prediction: its first concepts, at most MAX_LABELS. */
  function Labels(p: Prediction): (r: seq<string>)
    ensures |r| == if |p.concepts| < MAX_LABELS then |p.concepts| else MAX_LABELS
    ensures r == p.concepts[..|r|]
  {
    if |p.concepts| <= MAX_LABELS then p.concepts else p.concepts[..MAX_LABELS]
  }

  /** The object after a recognition answer: unchanged on failure, otherwise
      with the labels appended. */
  function Recognized(o: TrackedObject, p: Prediction): TrackedObject
  {
    if p.statusCode != SUCCESS_CODE then o else o.(recognition := o.recognition + Labels(p))
  }

  /** One recognition request for object `id`: the request is counted whatever
      the answer, and only that object's labels may change. */
  ghost function Recognize(s: TrackerState, id: nat, p: Prediction): TrackerState
    requires id in s.objects
  {
    s.(objects := s.objects[id := Recognized(s.objects[id], p)], calls := s.calls + multiset{id})
  }

  /** A failed request changes no object; a successful one appends, in order,
      the first min(n, MAX_LABELS) concept names to the labels of `id` and
      touches no other object. */
  lemma RecognizeEffect(s: TrackerState, id: nat, p: Prediction)
    requires id in s.objects
    ensures Recognize(s, id, p).calls == s.calls + multiset{id}
    ensures Recognize(s, id, p).objects.Keys == s.objects.Keys
    ensures forall other :: other in s.objects && other != id ==> Recognize(s, id, p).objects[other] == s.objects[other]
    ensures p.statusCode != SUCCESS_CODE ==> Recognize(s, id, p).objects == s.objects
    ensures p.statusCode == SUCCESS_CODE ==>
      Recognize(s, id, p).objects[id].recognition
        == s.objects[id].recognition + p.concepts[..Min(|p.concepts|, MAX_LABELS)]
  {
  }

  function Min(a: int, b: int): int
  {
    if a < b then a else b
  }

  // ---------------------------------------------------------------- one visit

  /** A confirmed object without a snapshot is captured now. */
  predicate Captures(o: TrackedObject)
  {
    Confirmed(o) && o.img.None?
  }

  /** What the scan does to one object: capture it if it is confirmed and has
      no snapshot yet, then, if recognition is on, ask the service about that
      snapshot. */
  function Visit(o: TrackedObject, frame: FrameId, doRecognize: bool, service: Snapshot -> Prediction): TrackedObject
  {
    if Captures(o) then
      var snap := Snapshot(frame, o.box);
      var captured := o.(img := Some(snap));
      if doRecognize then Recognized(captured, service(snap)) else captured
    else o
  }

  /** The snapshot is taken once: a visit changes neither the box nor the
      times; an object that already has a snapshot is left exactly as it is;
      a snapshot appears exactly for confirmed objects that had none, and it
      is the object's box in the current frame; a second visit does nothing. */
  lemma VisitCapturesOnce(o: TrackedObject, frame: FrameId, doRecognize: bool, service: Snapshot -> Prediction,
                          frame': FrameId, doRecognize': bool, service': Snapshot -> Prediction)
    ensures var v := Visit(o, frame, doRecognize, service);
      && v.box == o.box && v.firstSeen == o.firstSeen && v.lastSeen == o.lastSeen
      && (o.img.Some? ==> v == o)
      && (v.img.Some? <==> o.img.Some? || Confirmed(o))
      && (Captures(o) ==> v.img == Some(Snapshot(frame, o.box)))
      && (!Captures(o) || !doRecognize ==> v.recognition == o.recognition)
      && Visit(v, frame', doRecognize', service') == v
  {
  }

  /** A visit keeps the label bound of an object that has no labels before
      its snapshot: a capture adds at most MAX_LABELS to an empty list. */
  lemma VisitKeepsLabelBound(o: TrackedObject, frame: FrameId, doRecognize: bool, service: Snapshot -> Prediction)
    requires |o.recognition| <= MAX_LABELS && (o.img.None? ==> o.recognition == [])
    ensures |Visit(o, frame, doRecognize, service).recognition| <= MAX_LABELS
  {
    if Captures(o) && doRecognize {
      assert o.recognition == [];
    }
  }

  ghost function Visited(objs: map<nat, TrackedObject>, frame: FrameId, doRecognize: bool,
                         service: Snapshot -> Prediction): map<nat, TrackedObject>
  {
    map id | id in objs :: Visit(objs[id], frame, doRecognize, service)
  }

  ghost function DoomedIds(objs: map<nat, TrackedObject>, now: int): set<nat>
  {
    set id | id in objs && Doomed(objs[id], now)
  }

  // ---------------------------------------------------------------- the scan

  /** The deletion list the scan builds over `ids`: an id is appended once if
      ephemeral and once if stale. */
  ghost function Queued(ids: seq<nat>, objs: map<nat, TrackedObject>, now: int): seq<nat>
    decreases |ids|
  {
    if ids == [] then []
    else
      var id := ids[|ids| - 1];
      var rest := Queued(ids[..|ids| - 1], objs, now);
      if id !in objs then rest
      else rest + (if Ephemeral(objs[id], now) then [id] else []) + (if Stale(objs[id], now) then [id] else [])
  }

  /** The ids, in scan order, for which the scan requests recognition. */
  ghost function Recognitions(ids: seq<nat>, objs: map<nat, TrackedObject>, doRecognize: bool): seq<nat>
    decreases |ids|
  {
    if ids == [] then []
    else
      var id := ids[|ids| - 1];
      Recognitions(ids[..|ids| - 1], objs, doRecognize)
        + (if doRecognize && id in objs && Captures(objs[id]) then [id] else [])
  }

  /** Dropping the last id of an ascending sequence keeps it ascending, and
      every id left is below the dropped one. */
  lemma PrefixIncreasing(ids: seq<nat>, prefix: seq<nat>, last: nat)
    requires ids != [] && Increasing(ids) && prefix == ids[..|ids| - 1] && last == ids[|ids| - 1]
    ensures Increasing(prefix)
    ensures forall x :: x in prefix ==> x < last
    ensures forall x :: x in ids <==> x in prefix || x == last
  {
    assert ids == prefix + [last];
    forall i, j | 0 <= i < j < |prefix| ensures prefix[i] < prefix[j] {
      assert ids[i] == prefix[i] && ids[j] == prefix[j];
    }
    forall x | x in prefix ensures x < last {
      var i :| 0 <= i < |prefix| && prefix[i] == x;
      assert ids[i] == x;
    }
  }

  lemma AppendIncreasing(s: seq<nat>, x: nat)
    requires Increasing(s) && forall y :: y in s ==> y < x
    ensures Increasing(s + [x])
  {
    forall i, j | 0 <= i < j < |s + [x]| ensures (s + [x])[i] < (s + [x])[j] {
      assert (s + [x])[i] == s[i] && s[i] in s;
    }
  }

  /** The deletion list holds exactly the ephemeral and stale objects, each
      once: it ascends with the scan order. */
  lemma {:induction false} QueuedExactlyDoomed(ids: seq<nat>, objs: map<nat, TrackedObject>, now: int)
    requires Increasing(ids)
    ensures Increasing(Queued(ids, objs, now))
    ensures forall id :: id in Queued(ids, objs, now) <==> id in ids && id in objs && Doomed(objs[id], now)
    decreases |ids|
  {
    if ids != [] {
      var id := ids[|ids| - 1];
      var prefix := ids[..|ids| - 1];
      PrefixIncreasing(ids, prefix, id);
      QueuedExactlyDoomed(prefix, objs, now);
      var rest := Queued(prefix, objs, now);
      if id in objs {
        Classification(objs[id], now);
        if Doomed(objs[id], now) {
          AppendIncreasing(rest, id);
          assert Queued(ids, objs, now) == rest + [id];
        } else {
          assert Queued(ids, objs, now) == rest;
        }
      }
    }
  }

  /** Recognition is requested exactly for the ids in scan order whose object
      is captured in this scan, each once. */
  lemma {:induction false} RecognitionsExact(ids: seq<nat>, objs: map<nat, TrackedObject>, doRecognize: bool)
    requires Increasing(ids)
    ensures Increasing(Recognitions(ids, objs, doRecognize))
    ensures forall id :: id in Recognitions(ids, objs, doRecognize) <==>
      doRecognize && id in ids && id in objs && Captures(objs[id])
    decreases |ids|
  {
    if ids != [] {
      var id := ids[|ids| - 1];
      var prefix := ids[..|ids| - 1];
      PrefixIncreasing(ids, prefix, id);
      RecognitionsExact(prefix, objs, doRecognize);
      if doRecognize && id in objs && Captures(objs[id]) {
        AppendIncreasing(Recognitions(prefix, objs, doRecognize), id);
      }
    }
  }

  // ---------------------------------------------------------------- the layout

  /** The horizontal room a confirmed object takes on the summary canvas: its
      width, but at least MIN_SLOT_WIDTH, plus PADDING. */
  function SlotWidth(w: int): (r: int)
    ensures r >= PADDING + MIN_SLOT_WIDTH && r >= PADDING + w
    ensures r == PADDING + MIN_SLOT_WIDTH || r == PADDING + w
  {
    if w < MIN_SLOT_WIDTH then PADDING + MIN_SLOT_WIDTH else PADDING + w
  }

  /** The labels under an object of height `h`, one every LABEL_STEP pixels,
      the first at LABEL_BASE + h. */
  function Captions(labels: seq<string>, h: int): (r: seq<Caption>)
    ensures |r| == |labels|
    ensures forall k :: 0 <= k < |labels| ==> r[k] == Caption(labels[k], LABEL_BASE + h + LABEL_STEP * k)
    decreases |labels|
  {
    if labels == [] then []
    else
      var n := |labels| - 1;
      Captions(labels[..n], h) + [Caption(labels[n], LABEL_BASE + h + LABEL_STEP * n)]
  }

  datatype Canvas = Canvas(tiles: seq<Tile>, offset: int)

  /** The summary canvas after drawing the objects of `ids`, in order: each
      confirmed object gets a tile at the running offset, which then advances
      by the object's slot width. */
  function Layout(ids: seq<nat>, objs: map<nat, TrackedObject>): Canvas
    decreases |ids|
  {
    if ids == [] then Canvas([], 0)
    else
      var c := Layout(ids[..|ids| - 1], objs);
      var id := ids[|ids| - 1];
      if id in objs && Confirmed(objs[id]) then
        var o := objs[id];
        Canvas(c.tiles + [Tile(id, c.offset, o.img, Captions(o.recognition, o.box.h))], c.offset + SlotWidth(o.box.w))
      else c
  }

  /** Each tile begins where the previous one's slot ends, and the running
      offset is where the last one's slot ends. */
  ghost predicate Chained(tiles: seq<Tile>, offset: int, objs: map<nat, TrackedObject>)
  {
    forall k {:trigger tiles[k]} :: 0 <= k < |tiles| ==>
      tiles[k].id in objs
      && tiles[k].left + SlotWidth(objs[tiles[k].id].box.w) == (if k + 1 < |tiles| then tiles[k + 1].left else offset)
  }

  lemma ChainedAppend(tiles: seq<Tile>, offset: int, objs: map<nat, TrackedObject>, t: Tile)
    requires Chained(tiles, offset, objs) && t.id in objs && t.left == offset
    ensures Chained(tiles + [t], offset + SlotWidth(objs[t.id].box.w), objs)
  {
    var tiles' := tiles + [t];
    forall k | 0 <= k < |tiles'|
      ensures tiles'[k].id in objs
      ensures tiles'[k].left + SlotWidth(objs[tiles'[k].id].box.w)
              == (if k + 1 < |tiles'| then tiles'[k + 1].left else offset + SlotWidth(objs[t.id].box.w))
    {
      if k < |tiles| {
        assert tiles'[k] == tiles[k];
        if k + 1 < |tiles| {
          assert tiles'[k + 1] == tiles[k + 1];
        } else {
          assert tiles'[k + 1] == t;
        }
      } else {
        assert tiles'[k] == t;
      }
    }
  }

  /** The offset starts at 0 and each tile begins where the previous one's
      slot ends, so the tiles do not overlap: the k-th tile starts at least at
      110 * k and the running offset after n tiles is at least 110 * n. */
  ghost predicate Spread(c: Canvas, objs: map<nat, TrackedObject>)
  {
    && (c.tiles == [] ==> c.offset == 0)
    && (c.tiles != [] ==> c.tiles[0].left == 0)
    && Chained(c.tiles, c.offset, objs)
    && (forall k :: 0 <= k < |c.tiles| ==> c.tiles[k].left >= (PADDING + MIN_SLOT_WIDTH) * k)
    && c.offset >= (PADDING + MIN_SLOT_WIDTH) * |c.tiles|
  }

  lemma {:induction false} LayoutSpacing(ids: seq<nat>, objs: map<nat, TrackedObject>)
    ensures Spread(Layout(ids, objs), objs)
    decreases |ids|
  {
    if ids != [] {
      var prefix := ids[..|ids| - 1];
      var id := ids[|ids| - 1];
      LayoutSpacing(prefix, objs);
      var c := Layout(prefix, objs);
      if id in objs && Confirmed(objs[id]) {
        var o := objs[id];
        var t := Tile(id, c.offset, o.img, Captions(o.recognition, o.box.h));
        ChainedAppend(c.tiles, c.offset, objs, t);
        var tiles' := c.tiles + [t];
        forall k | 0 <= k < |tiles'| ensures tiles'[k].left >= (PADDING + MIN_SLOT_WIDTH) * k {
          if k < |c.tiles| {
            assert tiles'[k] == c.tiles[k];
          }
        }
      }
    }
  }

  /** Every tile shows a confirmed object of `ids`, with its snapshot and its labels. */
  ghost predicate ShowsConfirmed(c: Canvas, ids: seq<nat>, objs: map<nat, TrackedObject>)
  {
    forall k :: 0 <= k < |c.tiles| ==>
      && c.tiles[k].id in ids && c.tiles[k].id in objs && Confirmed(objs[c.tiles[k].id])
      && c.tiles[k].img == objs[c.tiles[k].id].img
      && c.tiles[k].captions == Captions(objs[c.tiles[k].id].recognition, objs[c.tiles[k].id].box.h)
  }

  lemma {:induction false} LayoutTilesConfirmed(ids: seq<nat>, objs: map<nat, TrackedObject>)
    ensures ShowsConfirmed(Layout(ids, objs), ids, objs)
    decreases |ids|
  {
    if ids != [] {
      var prefix := ids[..|ids| - 1];
      var id := ids[|ids| - 1];
      assert ids == prefix + [id];
      LayoutTilesConfirmed(prefix, objs);
      var c := Layout(prefix, objs);
      var c' := Layout(ids, objs);
      forall k | 0 <= k < |c'.tiles|
        ensures c'.tiles[k].id in ids && c'.tiles[k].id in objs && Confirmed(objs[c'.tiles[k].id])
        ensures c'.tiles[k].img == objs[c'.tiles[k].id].img
        ensures c'.tiles[k].captions == Captions(objs[c'.tiles[k].id].recognition, objs[c'.tiles[k].id].box.h)
      {
        if k < |c.tiles| {
          assert c'.tiles[k] == c.tiles[k];
          assert c.tiles[k].id in prefix;
        }
      }
    }
  }

  /** Every confirmed object of `ids` has a tile. */
  ghost predicate CoversConfirmed(c: Canvas, ids: seq<nat>, objs: map<nat, TrackedObject>)
  {
    forall id :: id in ids && id in objs && Confirmed(objs[id]) ==>
      exists k :: 0 <= k < |c.tiles| && c.tiles[k].id == id
  }

  lemma {:induction false} LayoutCoversConfirmed(ids: seq<nat>, objs: map<nat, TrackedObject>)
    ensures CoversConfirmed(Layout(ids, objs), ids, objs)
    decreases |ids|
  {
    if ids != [] {
      var prefix := ids[..|ids| - 1];
      var last := ids[|ids| - 1];
      assert ids == prefix + [last];
      LayoutCoversConfirmed(prefix, objs);
      var c := Layout(prefix, objs);
      var c' := Layout(ids, objs);
      forall x | x in ids && x in objs && Confirmed(objs[x])
        ensures exists k :: 0 <= k < |c'.tiles| && c'.tiles[k].id == x
      {
        if x == last {
          assert c'.tiles[|c.tiles|].id == x;
        } else {
          assert x in prefix;
          var k :| 0 <= k < |c.tiles| && c.tiles[k].id == x;
          if last in objs && Confirmed(objs[last]) {
            assert c'.tiles[k] == c.tiles[k];
          }
        }
      }
    }
  }

  /** The tiles follow the scan order, so each object is drawn once. */
  ghost predicate InScanOrder(c: Canvas)
  {
    forall i, j :: 0 <= i < j < |c.tiles| ==> c.tiles[i].id < c.tiles[j].id
  }

  lemma {:induction false} LayoutInScanOrder(ids: seq<nat>, objs: map<nat, TrackedObject>)
    requires Increasing(ids)
    ensures InScanOrder(Layout(ids, objs))
    decreases |ids|
  {
    if ids != [] {
      var prefix := ids[..|ids| - 1];
      var last := ids[|ids| - 1];
      PrefixIncreasing(ids, prefix, last);
      LayoutInScanOrder(prefix, objs);
      LayoutTilesConfirmed(prefix, objs);
      var c := Layout(prefix, objs);
      var c' := Layout(ids, objs);
      if last in objs && Confirmed(objs[last]) {
        forall i, j | 0 <= i < j < |c'.tiles| ensures c'.tiles[i].id < c'.tiles[j].id {
          assert c'.tiles[i] == c.tiles[i];
          if j < |c.tiles| {
            assert c'.tiles[j] == c.tiles[j];
          } else {
            assert c.tiles[i].id in prefix;
          }
        }
      }
    }
  }

  // ---------------------------------------------------------------- the scan, step by step

  /** What the scan carries from one object to the next: the table, the
      deletion list, the recognition requests, the canvas tiles and the
      running offset. */
  datatype Scan = Scan(objects: map<nat, TrackedObject>, queue: seq<nat>, calls: multiset<nat>,
                       tiles: seq<Tile>, offset: int)

  /** The scan's work on object `id`, in the order the loop body does it. */
  function ScanOne(c: Scan, id: nat, now: int, frame: FrameId, doRecognize: bool,
                   service: Snapshot -> Prediction): Scan
  {
    if id !in c.objects then c
    else
      var o := c.objects[id];
      var queue := c.queue + (if Ephemeral(o, now) then [id] else []) + (if Stale(o, now) then [id] else []);
      if Confirmed(o) then
        var v := Visit(o, frame, doRecognize, service);
        Scan(c.objects[id := v], queue,
             c.calls + (if doRecognize && o.img.None? then multiset{id} else multiset{}),
             c.tiles + [Tile(id, c.offset, v.img, Captions(v.recognition, v.box.h))],
             c.offset + SlotWidth(v.box.w))
      else c.(queue := queue)
  }

  /** The scan over `ids`, from an untouched table and an empty canvas. */
  function ScanAll(ids: seq<nat>, start: Scan, now: int, frame: FrameId, doRecognize: bool,
                   service: Snapshot -> Prediction): Scan
    decreases |ids|
  {
    if ids == [] then start
    else ScanOne(ScanAll(ids[..|ids| - 1], start, now, frame, doRecognize, service), ids[|ids| - 1],
                 now, frame, doRecognize, service)
  }

  /** The table after visiting exactly the objects of `done`. */
  ghost function VisitedAmong(objs: map<nat, TrackedObject>, done: set<nat>, frame: FrameId, doRecognize: bool,
                              service: Snapshot -> Prediction): map<nat, TrackedObject>
  {
    map id | id in objs :: if id in done then Visit(objs[id], frame, doRecognize, service) else objs[id]
  }

  /** Run object by object over distinct ids, the scan visits each object
      of `ids` once and leaves the others alone. */
  lemma {:induction false} ScanAllVisits(ids: seq<nat>, start: Scan, now: int, frame: FrameId, doRecognize: bool,
                                         service: Snapshot -> Prediction)
    requires Increasing(ids)
    ensures ScanAll(ids, start, now, frame, doRecognize, service).objects
      == VisitedAmong(start.objects, Members(ids), frame, doRecognize, service)
    decreases |ids|
  {
    var objs := start.objects;
    if ids == [] {
      assert VisitedAmong(objs, Members(ids), frame, doRecognize, service) == objs;
    } else {
      var prefix := ids[..|ids| - 1];
      var id := ids[|ids| - 1];
      assert Members(ids) == Members(prefix) + {id} by {
        assert ids == prefix + [id];
      }
      PrefixIncreasing(ids, prefix, id);
      ScanAllVisits(prefix, start, now, frame, doRecognize, service);
      if id in objs {
        assert id !in Members(prefix);
        VisitedAmongAdd(objs, Members(prefix), id, frame, doRecognize, service);
      } else {
        VisitedAmongMissing(objs, Members(prefix), id, frame, doRecognize, service);
      }
    }
  }

  /** Visiting one more object changes exactly that object. */
  lemma VisitedAmongAdd(objs: map<nat, TrackedObject>, done: set<nat>, id: nat, frame: FrameId, doRecognize: bool,
                        service: Snapshot -> Prediction)
    requires id in objs && id !in done
    ensures VisitedAmong(objs, done + {id}, frame, doRecognize, service)
      == VisitedAmong(objs, done, frame, doRecognize, service)[id := Visit(objs[id], frame, doRecognize, service)]
  {
  }

  lemma VisitedAmongMissing(objs: map<nat, TrackedObject>, done: set<nat>, id: nat, frame: FrameId, doRecognize: bool,
                            service: Snapshot -> Prediction)
    requires id !in objs
    ensures VisitedAmong(objs, done + {id}, frame, doRecognize, service)
      == VisitedAmong(objs, done, frame, doRecognize, service)
  {
  }

  /** The deletion list the scan builds is the queue of the ephemeral and
      stale objects. */
  lemma {:induction false} ScanAllQueues(ids: seq<nat>, start: Scan, now: int, frame: FrameId, doRecognize: bool,
                                         service: Snapshot -> Prediction)
    requires Increasing(ids)
    ensures ScanAll(ids, start, now, frame, doRecognize, service).queue == start.queue + Queued(ids, start.objects, now)
    decreases |ids|
  {
    if ids != [] {
      var prefix := ids[..|ids| - 1];
      var id := ids[|ids| - 1];
      PrefixIncreasing(ids, prefix, id);
      ScanAllQueues(prefix, start, now, frame, doRecognize, service);
      ScanAllVisits(prefix, start, now, frame, doRecognize, service);
      if id in start.objects {
        assert id !in Members(prefix);
      }
    }
  }

  /** The scan requests recognition for exactly the objects it captures. */
  lemma {:induction false} ScanAllRequests(ids: seq<nat>, start: Scan, now: int, frame: FrameId, doRecognize: bool,
                                           service: Snapshot -> Prediction)
    requires Increasing(ids)
    ensures ScanAll(ids, start, now, frame, doRecognize, service).calls
      == start.calls + multiset(Recognitions(ids, start.objects, doRecognize))
    decreases |ids|
  {
    if ids != [] {
      var prefix := ids[..|ids| - 1];
      var id := ids[|ids| - 1];
      PrefixIncreasing(ids, prefix, id);
      ScanAllRequests(prefix, start, now, frame, doRecognize, service);
      ScanAllVisits(prefix, start, now, frame, doRecognize, service);
      var objs := start.objects;
      var c := ScanAll(prefix, start, now, frame, doRecognize, service);
      var rec := if doRecognize && id in objs && Captures(objs[id]) then [id] else [];
      if id in objs {
        assert id !in Members(prefix);
      }
      ScanOneRequests(c, objs, id, now, frame, doRecognize, service);
      assert Recognitions(ids, objs, doRecognize) == Recognitions(prefix, objs, doRecognize) + rec;
      assert multiset(Recognitions(ids, objs, doRecognize))
        == multiset(Recognitions(prefix, objs, doRecognize)) + multiset(rec);
    }
  }

  /** One scan step on an object not yet visited asks for recognition
      exactly when it captures that object with recognition on. */
  lemma ScanOneRequests(c: Scan, objs: map<nat, TrackedObject>, id: nat, now: int, frame: FrameId,
                        doRecognize: bool, service: Snapshot -> Prediction)
    requires c.objects.Keys == objs.Keys
    requires id in objs ==> c.objects[id] == objs[id]
    ensures ScanOne(c, id, now, frame, doRecognize, service).calls
      == c.calls + multiset(if doRecognize && id in objs && Captures(objs[id]) then [id] else [])
  {
  }

  /** Started on an empty canvas, the scan draws the layout of the confirmed
      objects, each with its snapshot and its labels as visited. */
  lemma {:induction false} ScanAllDraws(ids: seq<nat>, start: Scan, now: int, frame: FrameId, doRecognize: bool,
                                        service: Snapshot -> Prediction)
    requires Increasing(ids) && start.tiles == [] && start.offset == 0
    ensures ScanAll(ids, start, now, frame, doRecognize, service).tiles
      == Layout(ids, Visited(start.objects, frame, doRecognize, service)).tiles
    ensures ScanAll(ids, start, now, frame, doRecognize, service).offset
      == Layout(ids, Visited(start.objects, frame, doRecognize, service)).offset
    decreases |ids|
  {
    if ids != [] {
      var prefix := ids[..|ids| - 1];
      var id := ids[|ids| - 1];
      PrefixIncreasing(ids, prefix, id);
      ScanAllDraws(prefix, start, now, frame, doRecognize, service);
      ScanAllVisits(prefix, start, now, frame, doRecognize, service);
      if id in start.objects {
        assert id !in Members(prefix);
        VisitCapturesOnce(start.objects[id], frame, doRecognize, service, frame, doRecognize, service);
      }
    }
  }

  // ---------------------------------------------------------------- the whole analysis

  /** The effect of one analysis at time `now` on the whole state: every
      object is visited, the summary canvas is redrawn from scratch, the
      ephemeral and stale objects are removed afterwards (a stale one is still
      captured and drawn first), and the recognition requests are counted. */
  ghost function Analyse(s: TrackerState, now: int, frame: FrameId, doRecognize: bool,
                         service: Snapshot -> Prediction): TrackerState
  {
    var visited := Visited(s.objects, frame, doRecognize, service);
    var doomed := DoomedIds(s.objects, now);
    s.(objects := visited - doomed,
       order := Without(s.order, doomed),
       summary := Layout(s.order, visited).tiles,
       calls := s.calls + multiset(Recognitions(s.order, s.objects, doRecognize)),
       clock := now)
  }

  /** An analysis removes exactly the ephemeral and stale objects, keeps the
      id counter, and leaves every survivor as its visit made it. */
  ghost predicate RemovesDoomed(s: TrackerState, a: TrackerState, now: int, frame: FrameId, doRecognize: bool,
                                service: Snapshot -> Prediction)
  {
    && (forall id :: id in a.objects <==> id in s.objects && !Doomed(s.objects[id], now))
    && (forall id :: id in a.order <==> id in s.objects && !Doomed(s.objects[id], now))
    && (forall id :: id in a.objects ==> id in s.objects && a.objects[id] == Visit(s.objects[id], frame, doRecognize, service))
    && a.lastObjectId == s.lastObjectId
  }

  lemma AnalyseRemovesDoomed(s: TrackerState, now: int, frame: FrameId, doRecognize: bool,
                             service: Snapshot -> Prediction)
    requires Wellformed(s)
    ensures RemovesDoomed(s, Analyse(s, now, frame, doRecognize, service), now, frame, doRecognize, service)
  {
  }

  /** Recognition is requested once for each object captured in this
      analysis, when recognition is on, and for no other id. */
  lemma AnalyseCountsRecognitions(s: TrackerState, now: int, frame: FrameId, doRecognize: bool,
                                  service: Snapshot -> Prediction, id: nat)
    requires Wellformed(s)
    ensures Analyse(s, now, frame, doRecognize, service).calls[id]
      == s.calls[id] + (if doRecognize && id in s.objects && Captures(s.objects[id]) then 1 else 0)
  {
    RecognitionsExact(s.order, s.objects, doRecognize);
    IncreasingCount(Recognitions(s.order, s.objects, doRecognize), id);
  }

  lemma AnalyseWellformed(s: TrackerState, now: int, frame: FrameId, doRecognize: bool,
                          service: Snapshot -> Prediction)
    requires Wellformed(s)
    ensures Wellformed(Analyse(s, now, frame, doRecognize, service))
  {
  }

  /** Whatever the clock, an analysis keeps the recognition invariant: in
      particular no id is ever recognized twice, and no survivor has more
      than MAX_LABELS labels. */
  lemma AnalyseOnce(s: TrackerState, now: int, frame: FrameId, doRecognize: bool,
                    service: Snapshot -> Prediction)
    requires Wellformed(s) && Once(s)
    ensures Once(Analyse(s, now, frame, doRecognize, service))
  {
    var a := Analyse(s, now, frame, doRecognize, service);
    AnalyseRemovesDoomed(s, now, frame, doRecognize, service);
    forall id | id in a.objects
      ensures |a.objects[id].recognition| <= MAX_LABELS
      ensures a.objects[id].img.None? ==> id !in a.calls && a.objects[id].recognition == []
    {
      var o := s.objects[id];
      VisitCapturesOnce(o, frame, doRecognize, service, frame, doRecognize, service);
      VisitKeepsLabelBound(o, frame, doRecognize, service);
      AnalyseCountsRecognitions(s, now, frame, doRecognize, service, id);
    }
    forall id | id in a.calls ensures 1 <= id <= a.lastObjectId && a.calls[id] == 1 {
      AnalyseCountsRecognitions(s, now, frame, doRecognize, service, id);
      if id in s.calls {
        assert !(id in s.objects && Captures(s.objects[id]));
      }
    }
  }

  /** With a clock that does not go back, an analysis keeps the lifecycle
      invariant: the recognition part above, and the times. */
  lemma AnalyseHealthy(s: TrackerState, now: int, frame: FrameId, doRecognize: bool,
                       service: Snapshot -> Prediction)
    requires Wellformed(s) && Healthy(s) && s.clock <= now
    ensures Healthy(Analyse(s, now, frame, doRecognize, service))
  {
    var a := Analyse(s, now, frame, doRecognize, service);
    AnalyseOnce(s, now, frame, doRecognize, service);
    AnalyseRemovesDoomed(s, now, frame, doRecognize, service);
    forall id | id in a.objects
      ensures a.objects[id].firstSeen <= a.objects[id].lastSeen <= a.clock
    {
      VisitCapturesOnce(s.objects[id], frame, doRecognize, service, frame, doRecognize, service);
    }
  }

  /** No object is left to capture or to remove at time `now`. */
  ghost predicate Settled(objs: map<nat, TrackedObject>, now: int)
  {
    forall id :: id in objs ==> !Doomed(objs[id], now) && !Captures(objs[id])
  }

  /** After an analysis at time `now` every survivor is settled. */
  lemma AnalyseSettles(s: TrackerState, now: int, frame: FrameId, doRecognize: bool,
                       service: Snapshot -> Prediction)
    requires Wellformed(s)
    ensures Settled(Analyse(s, now, frame, doRecognize, service).objects, now)
  {
    var a := Analyse(s, now, frame, doRecognize, service);
    AnalyseRemovesDoomed(s, now, frame, doRecognize, service);
    forall id | id in a.objects ensures !Doomed(a.objects[id], now) && !Captures(a.objects[id]) {
      VisitSettles(s.objects[id], now, frame, doRecognize, service);
    }
  }

  /** A visited survivor is neither doomed nor left to capture. */
  lemma VisitSettles(o: TrackedObject, now: int, frame: FrameId, doRecognize: bool, service: Snapshot -> Prediction)
    requires !Doomed(o, now)
    ensures !Doomed(Visit(o, frame, doRecognize, service), now) && !Captures(Visit(o, frame, doRecognize, service))
  {
    VisitCapturesOnce(o, frame, doRecognize, service, frame, doRecognize, service);
  }

  lemma {:induction false} SettledRecognizesNothing(ids: seq<nat>, objs: map<nat, TrackedObject>, now: int, doRecognize: bool)
    requires Settled(objs, now)
    ensures Recognitions(ids, objs, doRecognize) == []
    decreases |ids|
  {
    if ids != [] {
      SettledRecognizesNothing(ids[..|ids| - 1], objs, now, doRecognize);
    }
  }

  /** On a settled table an analysis at the same time only redraws the canvas. */
  lemma SettledIsFixed(s: TrackerState, now: int, frame: FrameId, doRecognize: bool,
                       service: Snapshot -> Prediction)
    requires Settled(s.objects, now) && s.clock == now
    ensures Analyse(s, now, frame, doRecognize, service) == s.(summary := Layout(s.order, s.objects).tiles)
  {
    var doomed := DoomedIds(s.objects, now);
    assert doomed == {};
    var visited := Visited(s.objects, frame, doRecognize, service);
    assert visited == s.objects;
    assert visited - doomed == s.objects;
    WithoutNothing(s.order);
    SettledRecognizesNothing(s.order, s.objects, now, doRecognize);
    assert s.calls + multiset([]) == s.calls;
  }

  /** Running the analysis again at the same time captures nothing, requests
      no recognition and removes nothing, whatever the frame, the setting and
      the service: only the canvas is redrawn. */
  lemma AnalyseIdempotent(s: TrackerState, now: int, frame: FrameId, doRecognize: bool,
                          service: Snapshot -> Prediction,
                          frame': FrameId, doRecognize': bool, service': Snapshot -> Prediction)
    requires Wellformed(s)
    ensures var a := Analyse(s, now, frame, doRecognize, service);
      Analyse(a, now, frame', doRecognize', service') == a.(summary := Layout(a.order, a.objects).tiles)
  {
    AnalyseWellformed(s, now, frame, doRecognize, service);
    AnalyseSettles(s, now, frame, doRecognize, service);
    SettledIsFixed(Analyse(s, now, frame, doRecognize, service), now, frame', doRecognize', service');
  }

  // ---------------------------------------------------------------- the scan implements the analysis

  /** The scan over the table's key order, from an empty canvas. */
  function ScanOrder(s: TrackerState, now: int, frame: FrameId, doRecognize: bool,
                     service: Snapshot -> Prediction): Scan
  {
    ScanAll(s.order, Scan(s.objects, [], s.calls, [], 0), now, frame, doRecognize, service)
  }

  /** The deletion list the scan builds holds only keys of the scanned table,
      each once, so every deletion after the scan finds its key. */
  lemma ScanQueueDeletable(s: TrackerState, now: int, frame: FrameId, doRecognize: bool,
                           service: Snapshot -> Prediction)
    requires Wellformed(s)
    ensures var c := ScanOrder(s, now, frame, doRecognize, service);
      Increasing(c.queue) && c.objects.Keys == s.objects.Keys && Members(c.queue) == DoomedIds(s.objects, now)
  {
    var start := Scan(s.objects, [], s.calls, [], 0);
    ScanAllVisits(s.order, start, now, frame, doRecognize, service);
    ScanAllQueues(s.order, start, now, frame, doRecognize, service);
    QueuedExactlyDoomed(s.order, s.objects, now);
  }

  lemma VisitedAmongAll(objs: map<nat, TrackedObject>, done: set<nat>, frame: FrameId, doRecognize: bool,
                        service: Snapshot -> Prediction)
    requires objs.Keys <= done
    ensures VisitedAmong(objs, done, frame, doRecognize, service) == Visited(objs, frame, doRecognize, service)
  {
  }

  /** The object-by-object scan followed by the deletions has exactly the
      effect the analysis describes. */
  lemma ScanIsAnalyse(s: TrackerState, now: int, frame: FrameId, doRecognize: bool,
                      service: Snapshot -> Prediction)
    requires Wellformed(s)
    ensures var c := ScanOrder(s, now, frame, doRecognize, service);
      Analyse(s, now, frame, doRecognize, service)
        == s.(objects := c.objects - Members(c.queue), order := Without(s.order, Members(c.queue)),
              summary := c.tiles, calls := c.calls, clock := now)
  {
    var start := Scan(s.objects, [], s.calls, [], 0);
    var c := ScanOrder(s, now, frame, doRecognize, service);
    ScanAllVisits(s.order, start, now, frame, doRecognize, service);
    ScanAllRequests(s.order, start, now, frame, doRecognize, service);
    ScanAllDraws(s.order, start, now, frame, doRecognize, service);
    ScanQueueDeletable(s, now, frame, doRecognize, service);
    assert Members(s.order) == s.objects.Keys;
    VisitedAmongAll(s.objects, Members(s.order), frame, doRecognize, service);
    var visited := Visited(s.objects, frame, doRecognize, service);
    var doomed := DoomedIds(s.objects, now);
    assert c.objects == visited;
    assert Members(c.queue) == doomed;
    assert c.tiles == Layout(s.order, visited).tiles;
    assert c.calls == s.calls + multiset(Recognitions(s.order, s.objects, doRecognize));
  }

  /** The scan followed by the deletion of its queue leaves the table in the
      state the analysis describes, and that state keeps the table's shape. */
  lemma ScanThenDelete(s: TrackerState, now: int, frame: FrameId, doRecognize: bool,
                       service: Snapshot -> Prediction, table: map<nat, TrackedObject>, keys: seq<nat>)
    requires Wellformed(s)
    requires table == ScanOrder(s, now, frame, doRecognize, service).objects
                      - Members(ScanOrder(s, now, frame, doRecognize, service).queue)
    requires keys == Without(s.order, Members(ScanOrder(s, now, frame, doRecognize, service).queue))
    ensures Analyse(s, now, frame, doRecognize, service)
      == TrackerState(table, keys, s.lastObjectId, ScanOrder(s, now, frame, doRecognize, service).tiles,
                      ScanOrder(s, now, frame, doRecognize, service).calls, now)
    ensures Wellformed(TrackerState(table, keys, s.lastObjectId, ScanOrder(s, now, frame, doRecognize, service).tiles,
                                    ScanOrder(s, now, frame, doRecognize, service).calls, now))
  {
    ScanIsAnalyse(s, now, frame, doRecognize, service);
    AnalyseWellformed(s, now, frame, doRecognize, service);
  }
}
