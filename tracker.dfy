/** The identity-matching step: a detected box either refreshes every tracked
    object it is close to, or becomes a new object under a fresh id. */
module Tracker {
  import opened Objects

  /** `|a - b| <= t`. */
  predicate Near(a: int, b: int, t: int)
  {
    -t <= a - b <= t
  }

  /** The box lies within `t` pixels of the object's box on each of x, y, w and h. */
  predicate Matches(o: TrackedObject, b: Box, t: int)
  {
    Near(o.box.x, b.x, t) && Near(o.box.y, b.y, t) && Near(o.box.w, b.w, t) && Near(o.box.h, b.h, t)
  }

  ghost predicate AnyMatch(objs: map<nat, TrackedObject>, b: Box, t: int)
  {
    exists id :: id in objs && Matches(objs[id], b, t)
  }

  function NewObject(b: Box, now: int): TrackedObject
  {
    TrackedObject(b, now, now, None, [])
  }

  /** Every object the box matches is marked seen at `now`; nothing else moves. */
  ghost function Refresh(objs: map<nat, TrackedObject>, b: Box, t: int, now: int): map<nat, TrackedObject>
  {
    map id | id in objs :: if Matches(objs[id], b, t) then objs[id].(lastSeen := now) else objs[id]
  }

  /** A box that matches nothing refreshes nothing. */
  lemma RefreshNothing(objs: map<nat, TrackedObject>, b: Box, t: int, now: int)
    requires !AnyMatch(objs, b, t)
    ensures Refresh(objs, b, t, now) == objs
  {
  }

  /** The effect of one call of the matching step on the whole state. */
  ghost function Track(s: TrackerState, b: Box, t: int, now: int): TrackerState
  {
    if AnyMatch(s.objects, b, t) then
      s.(objects := Refresh(s.objects, b, t, now), clock := now)
    else
      var id := s.lastObjectId + 1;
      s.(objects := s.objects[id := NewObject(b, now)], order := s.order + [id], lastObjectId := id, clock := now)
  }

  /** The contours of one frame, in order; those smaller than `minArea` are skipped. */
  ghost function TrackAll(s: TrackerState, boxes: seq<Detected>, minArea: real, t: int, now: int): TrackerState
    decreases |boxes|
  {
    if boxes == [] then s
    else
      var r := TrackAll(s, boxes[..|boxes| - 1], minArea, t, now);
      var d := boxes[|boxes| - 1];
      if d.area < minArea then r else Track(r, d.box, t, now)
  }

  /** How many of the contours are large enough to reach the matching step. */
  function LargeCount(boxes: seq<Detected>, minArea: real): (n: nat)
    ensures n <= |boxes|
  {
    if boxes == [] then 0
    else LargeCount(boxes[..|boxes| - 1], minArea) + (if boxes[|boxes| - 1].area < minArea then 0 else 1)
  }

  /** A box close to some object changes only `lastSeen`, of exactly the
      objects it matches; position, snapshot, labels, the key order and the
      id counter stay as they were. */
  lemma TrackRefreshes(s: TrackerState, b: Box, t: int, now: int)
    requires AnyMatch(s.objects, b, t)
    ensures var r := Track(s, b, t, now);
      && r.objects.Keys == s.objects.Keys
      && r.order == s.order && r.lastObjectId == s.lastObjectId && r.summary == s.summary && r.calls == s.calls
      && forall id :: id in s.objects ==>
           var o, o' := s.objects[id], r.objects[id];
           && o'.box == o.box && o'.firstSeen == o.firstSeen && o'.img == o.img && o'.recognition == o.recognition
           && o'.lastSeen == (if Matches(o, b, t) then now else o.lastSeen)
  {
  }

  /** A box close to no object adds exactly one entry, under the next id, with
      no snapshot and no labels, first and last seen now; the id is new to the
      table and, under the recognition invariant, was never recognized. */
  lemma TrackCreates(s: TrackerState, b: Box, t: int, now: int)
    requires Wellformed(s) && Once(s)
    requires !AnyMatch(s.objects, b, t)
    ensures var r := Track(s, b, t, now); var id := s.lastObjectId + 1;
      && r.lastObjectId == id
      && id !in s.objects && id !in s.calls
      && r.objects == s.objects[id := TrackedObject(b, now, now, None, [])]
      && r.order == s.order + [id]
      && r.summary == s.summary && r.calls == s.calls
  {
  }

  /** The id counter never decreases and the table keeps its shape. */
  lemma TrackWellformed(s: TrackerState, b: Box, t: int, now: int)
    requires Wellformed(s)
    ensures Wellformed(Track(s, b, t, now))
    ensures Track(s, b, t, now).lastObjectId >= s.lastObjectId
  {
    if !AnyMatch(s.objects, b, t) {
      var id := s.lastObjectId + 1;
      var o := s.order + [id];
      forall i, j | 0 <= i < j < |o| ensures o[i] < o[j] {
        if j == |s.order| {
          assert o[i] == s.order[i] && s.order[i] in s.objects;
        } else {
          assert o[i] == s.order[i] && o[j] == s.order[j];
        }
      }
    }
  }

  /** Whatever the clock, matching keeps the recognition invariant: a
      refreshed object keeps its snapshot and labels, and a new one has
      neither and an id that was never recognized. */
  lemma TrackOnce(s: TrackerState, b: Box, t: int, now: int)
    requires Wellformed(s) && Once(s)
    ensures Once(Track(s, b, t, now))
  {
    if AnyMatch(s.objects, b, t) {
      var r := Refresh(s.objects, b, t, now);
      assert Track(s, b, t, now) == s.(objects := r, clock := now);
    } else {
      TrackCreates(s, b, t, now);
      var id := s.lastObjectId + 1;
      var r := s.objects[id := NewObject(b, now)];
      assert Track(s, b, t, now) == s.(objects := r, order := s.order + [id], lastObjectId := id, clock := now);
    }
  }

  /** With a clock that does not go back, matching keeps the lifecycle invariant. */
  lemma TrackHealthy(s: TrackerState, b: Box, t: int, now: int)
    requires Wellformed(s) && Healthy(s) && s.clock <= now
    ensures Healthy(Track(s, b, t, now))
  {
    TrackOnce(s, b, t, now);
    if AnyMatch(s.objects, b, t) {
      var r := Refresh(s.objects, b, t, now);
      forall id | id in r ensures r[id].firstSeen <= r[id].lastSeen <= now {
        assert r[id].firstSeen == s.objects[id].firstSeen;
      }
      assert Track(s, b, t, now) == s.(objects := r, clock := now);
    } else {
      var id := s.lastObjectId + 1;
      var r := s.objects[id := NewObject(b, now)];
      assert Track(s, b, t, now) == s.(objects := r, order := s.order + [id], lastObjectId := id, clock := now);
    }
  }

  /** Two boxes close to the same object, one after the other: the second
      still finds that object (its box was not moved), so no object is
      created for either. */
  lemma TrackTwiceSameObject(s: TrackerState, id: nat, b1: Box, b2: Box, t: int, now: int)
    requires id in s.objects && Matches(s.objects[id], b1, t) && Matches(s.objects[id], b2, t)
    ensures var r := Track(Track(s, b1, t, now), b2, t, now);
      r.lastObjectId == s.lastObjectId && r.objects.Keys == s.objects.Keys && r.objects[id].lastSeen == now
  {
    var r1 := Track(s, b1, t, now);
    assert r1.objects[id].box == s.objects[id].box;
    assert AnyMatch(r1.objects, b2, t);
  }

  /** A frame's contours keep the table's shape; with a clock that does not go
      back they keep the lifecycle invariant, and the clock ends at `now`
      unless no contour was large enough. */
  lemma {:induction false} TrackAllInvariant(s: TrackerState, boxes: seq<Detected>, minArea: real, t: int, now: int)
    requires Wellformed(s)
    ensures var r := TrackAll(s, boxes, minArea, t, now);
      && Wellformed(r)
      && s.lastObjectId <= r.lastObjectId
      && (Healthy(s) && s.clock <= now ==> Healthy(r) && r.clock <= now)
      && r.clock == (if LargeCount(boxes, minArea) == 0 then s.clock else now)
    decreases |boxes|
  {
    if boxes != [] {
      var prefix := boxes[..|boxes| - 1];
      TrackAllInvariant(s, prefix, minArea, t, now);
      var r := TrackAll(s, prefix, minArea, t, now);
      var d := boxes[|boxes| - 1];
      if d.area >= minArea {
        TrackWellformed(r, d.box, t, now);
        if Healthy(s) && s.clock <= now {
          TrackHealthy(r, d.box, t, now);
        }
      }
    }
  }

  /** Whatever the clock, a frame's contours keep the recognition invariant. */
  lemma {:induction false} TrackAllOnce(s: TrackerState, boxes: seq<Detected>, minArea: real, t: int, now: int)
    requires Wellformed(s) && Once(s)
    ensures Once(TrackAll(s, boxes, minArea, t, now))
    decreases |boxes|
  {
    if boxes != [] {
      var prefix := boxes[..|boxes| - 1];
      TrackAllOnce(s, prefix, minArea, t, now);
      TrackAllInvariant(s, prefix, minArea, t, now);
      var r := TrackAll(s, prefix, minArea, t, now);
      var d := boxes[|boxes| - 1];
      if d.area >= minArea {
        TrackOnce(r, d.box, t, now);
      }
    }
  }

  /** Each contour creates at most one object, and contours below the minimum
      area none: the counter grows by at most the number of large contours,
      and when there are none the table is untouched. */
  lemma {:induction false} TrackAllCreatesAtMost(s: TrackerState, boxes: seq<Detected>, minArea: real, t: int, now: int)
    ensures var r := TrackAll(s, boxes, minArea, t, now);
      && r.lastObjectId <= s.lastObjectId + LargeCount(boxes, minArea)
      && (LargeCount(boxes, minArea) == 0 ==> r == s)
    decreases |boxes|
  {
    if boxes != [] {
      var prefix := boxes[..|boxes| - 1];
      TrackAllCreatesAtMost(s, prefix, minArea, t, now);
    }
  }
}
