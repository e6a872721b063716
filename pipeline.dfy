/** The frame loop: the first frame becomes the reference and is not analysed;
    every later frame feeds its large-enough contours to the matching step,
    then runs one analysis. */
module Pipeline {
  import opened Objects
  import opened Tracker
  import opened Lifecycle

  /** One frame as the loop sees it once the image processing is done: its
      position in the stream, the contours found against the reference frame,
      and the wall-clock time (whole seconds) at which it is handled. */
  datatype FrameInput = FrameInput(frame: FrameId, boxes: seq<Detected>, now: int)

  /** The frame the loop compares every later frame against: the first one. */
  function Reference(stream: seq<FrameInput>): (r: Option<FrameId>)
    ensures r.None? <==> stream == []
    ensures r.Some? ==> r.value == stream[0].frame
  {
    if stream == [] then None else Some(stream[0].frame)
  }

  /** One pass of the loop body after the reference frame. */
  ghost function Cycle(s: TrackerState, f: FrameInput, minArea: real, t: int, doRecognize: bool,
                       service: Snapshot -> Prediction): TrackerState
  {
    Analyse(TrackAll(s, f.boxes, minArea, t, f.now), f.now, f.frame, doRecognize, service)
  }

  ghost function Cycles(s: TrackerState, frames: seq<FrameInput>, minArea: real, t: int, doRecognize: bool,
                        service: Snapshot -> Prediction): TrackerState
    decreases |frames|
  {
    if frames == [] then s
    else Cycle(Cycles(s, frames[..|frames| - 1], minArea, t, doRecognize, service), frames[|frames| - 1],
               minArea, t, doRecognize, service)
  }

  /** The whole loop over a finite stream (the stream ends where the user
      quits): the first frame only sets the reference. */
  ghost function Run(s: TrackerState, stream: seq<FrameInput>, minArea: real, t: int, doRecognize: bool,
                     service: Snapshot -> Prediction): TrackerState
  {
    if stream == [] then s else Cycles(s, stream[1..], minArea, t, doRecognize, service)
  }

  /** The clock never goes back: each frame is handled no earlier than the
      previous one, and none earlier than `start`. */
  ghost predicate Clocked(frames: seq<FrameInput>, start: int)
  {
    && (forall i :: 0 <= i < |frames| ==> start <= frames[i].now)
    && (forall i, j :: 0 <= i < j < |frames| ==> frames[i].now <= frames[j].now)
  }

  /** An id that was handed out and has since been removed. */
  ghost predicate Retired(s: TrackerState, id: nat)
  {
    id <= s.lastObjectId && id !in s.objects
  }

  /** One pass keeps the table's shape; with a clock that does not go back it
      keeps the lifecycle invariant; it always ends with the clock at the
      frame's time. */
  lemma CycleInvariant(s: TrackerState, f: FrameInput, minArea: real, t: int, doRecognize: bool,
                       service: Snapshot -> Prediction)
    requires Wellformed(s)
    ensures Wellformed(Cycle(s, f, minArea, t, doRecognize, service))
    ensures Cycle(s, f, minArea, t, doRecognize, service).clock == f.now
    ensures s.lastObjectId <= Cycle(s, f, minArea, t, doRecognize, service).lastObjectId
    ensures Healthy(s) && s.clock <= f.now ==> Healthy(Cycle(s, f, minArea, t, doRecognize, service))
  {
    TrackAllInvariant(s, f.boxes, minArea, t, f.now);
    var r := TrackAll(s, f.boxes, minArea, t, f.now);
    AnalyseWellformed(r, f.now, f.frame, doRecognize, service);
    AnalyseRemovesDoomed(r, f.now, f.frame, doRecognize, service);
    if Healthy(s) && s.clock <= f.now {
      AnalyseHealthy(r, f.now, f.frame, doRecognize, service);
    }
  }

  /** Over any number of passes the table keeps its shape and, when the clock
      never goes back, the lifecycle invariant: no id is ever recognized twice. */
  lemma {:induction false} CyclesInvariant(s: TrackerState, frames: seq<FrameInput>, minArea: real, t: int,
                                           doRecognize: bool, service: Snapshot -> Prediction)
    requires Wellformed(s)
    ensures Wellformed(Cycles(s, frames, minArea, t, doRecognize, service))
    ensures Cycles(s, frames, minArea, t, doRecognize, service).clock
      == if frames == [] then s.clock else frames[|frames| - 1].now
    ensures s.lastObjectId <= Cycles(s, frames, minArea, t, doRecognize, service).lastObjectId
    ensures Healthy(s) && Clocked(frames, s.clock) ==> Healthy(Cycles(s, frames, minArea, t, doRecognize, service))
    decreases |frames|
  {
    if frames != [] {
      var prefix := frames[..|frames| - 1];
      var f := frames[|frames| - 1];
      CyclesInvariant(s, prefix, minArea, t, doRecognize, service);
      var r := Cycles(s, prefix, minArea, t, doRecognize, service);
      if Healthy(s) && Clocked(frames, s.clock) {
        assert Clocked(prefix, s.clock) by {
          forall i | 0 <= i < |prefix| ensures s.clock <= prefix[i].now {
            assert prefix[i] == frames[i];
          }
          forall i, j | 0 <= i < j < |prefix| ensures prefix[i].now <= prefix[j].now {
            assert prefix[i] == frames[i] && prefix[j] == frames[j];
          }
        }
        if prefix != [] {
          assert prefix[|prefix| - 1] == frames[|frames| - 2];
        }
      }
      CycleInvariant(r, f, minArea, t, doRecognize, service);
    }
  }

  /** The reference frame alone leaves the state as it was. */
  lemma RunStart(s: TrackerState, stream: seq<FrameInput>, minArea: real, t: int, doRecognize: bool,
                 service: Snapshot -> Prediction)
    requires stream != []
    ensures Run(s, stream[..1], minArea, t, doRecognize, service) == s
  {
    assert stream[..1][1..] == [];
  }

  /** After the reference frame, handling one more frame of the stream is
      one more pass. */
  lemma RunStep(s: TrackerState, stream: seq<FrameInput>, i: nat, minArea: real, t: int, doRecognize: bool,
                service: Snapshot -> Prediction)
    requires 1 <= i < |stream|
    ensures Run(s, stream[..i + 1], minArea, t, doRecognize, service)
      == Cycle(Run(s, stream[..i], minArea, t, doRecognize, service), stream[i], minArea, t, doRecognize, service)
  {
    var later := stream[..i + 1][1..];
    assert |later| == i && later[i - 1] == stream[i];
    assert later[..i - 1] == stream[..i][1..];
  }

  /** The whole loop keeps both invariants, under a clock that never goes back
      after the reference frame. */
  lemma RunInvariant(s: TrackerState, stream: seq<FrameInput>, minArea: real, t: int, doRecognize: bool,
                     service: Snapshot -> Prediction)
    requires Wellformed(s)
    ensures Wellformed(Run(s, stream, minArea, t, doRecognize, service))
    ensures Healthy(s) && stream != [] && Clocked(stream[1..], s.clock)
      ==> Healthy(Run(s, stream, minArea, t, doRecognize, service))
  {
    if stream != [] {
      CyclesInvariant(s, stream[1..], minArea, t, doRecognize, service);
    }
  }

  /** Whatever the clock does, one pass keeps the recognition invariant. */
  lemma CycleOnce(s: TrackerState, f: FrameInput, minArea: real, t: int, doRecognize: bool,
                  service: Snapshot -> Prediction)
    requires Wellformed(s) && Once(s)
    ensures Once(Cycle(s, f, minArea, t, doRecognize, service))
  {
    TrackAllInvariant(s, f.boxes, minArea, t, f.now);
    TrackAllOnce(s, f.boxes, minArea, t, f.now);
    AnalyseOnce(TrackAll(s, f.boxes, minArea, t, f.now), f.now, f.frame, doRecognize, service);
  }

  /** Whatever the clock does, any number of passes keep the recognition
      invariant: no id is ever recognized twice, and no object ever holds more
      than MAX_LABELS labels. */
  lemma {:induction false} CyclesOnce(s: TrackerState, frames: seq<FrameInput>, minArea: real, t: int,
                                      doRecognize: bool, service: Snapshot -> Prediction)
    requires Wellformed(s) && Once(s)
    ensures Once(Cycles(s, frames, minArea, t, doRecognize, service))
    decreases |frames|
  {
    if frames != [] {
      var prefix := frames[..|frames| - 1];
      CyclesOnce(s, prefix, minArea, t, doRecognize, service);
      CyclesInvariant(s, prefix, minArea, t, doRecognize, service);
      CycleOnce(Cycles(s, prefix, minArea, t, doRecognize, service), frames[|frames| - 1], minArea, t, doRecognize, service);
    }
  }

  /** Whatever the clock does, the whole loop keeps the recognition invariant. */
  lemma RunOnce(s: TrackerState, stream: seq<FrameInput>, minArea: real, t: int, doRecognize: bool,
                service: Snapshot -> Prediction)
    requires Wellformed(s) && Once(s)
    ensures Once(Run(s, stream, minArea, t, doRecognize, service))
  {
    if stream != [] {
      CyclesOnce(s, stream[1..], minArea, t, doRecognize, service);
    }
  }

  /** Matching one box never brings back a retired id: it either keeps the
      keys or adds the next id, which is above every id handed out. */
  lemma TrackKeepsRetired(s: TrackerState, b: Box, t: int, now: int, id: nat)
    requires Retired(s, id)
    ensures Retired(Track(s, b, t, now), id)
  {
  }

  lemma {:induction false} TrackAllKeepsRetired(s: TrackerState, boxes: seq<Detected>, minArea: real, t: int,
                                                now: int, id: nat)
    requires Retired(s, id)
    ensures Retired(TrackAll(s, boxes, minArea, t, now), id)
    decreases |boxes|
  {
    if boxes != [] {
      var prefix := boxes[..|boxes| - 1];
      TrackAllKeepsRetired(s, prefix, minArea, t, now, id);
      TrackKeepsRetired(TrackAll(s, prefix, minArea, t, now), boxes[|boxes| - 1].box, t, now, id);
    }
  }

  /** Once removed, an object's id never reappears: every later pass leaves
      it out of the table. */
  lemma {:induction false} CyclesKeepRetired(s: TrackerState, frames: seq<FrameInput>, minArea: real, t: int,
                                             doRecognize: bool, service: Snapshot -> Prediction, id: nat)
    requires Wellformed(s) && Retired(s, id)
    ensures Retired(Cycles(s, frames, minArea, t, doRecognize, service), id)
    decreases |frames|
  {
    if frames != [] {
      var prefix := frames[..|frames| - 1];
      var f := frames[|frames| - 1];
      CyclesKeepRetired(s, prefix, minArea, t, doRecognize, service, id);
      CyclesInvariant(s, prefix, minArea, t, doRecognize, service);
      var r := Cycles(s, prefix, minArea, t, doRecognize, service);
      TrackAllKeepsRetired(r, f.boxes, minArea, t, f.now, id);
      TrackAllInvariant(r, f.boxes, minArea, t, f.now);
      AnalyseRemovesDoomed(TrackAll(r, f.boxes, minArea, t, f.now), f.now, f.frame, doRecognize, service);
    }
  }

  /** A pass in which no contour is large enough still ages the table: the
      analysis runs on every frame after the reference, motion or not. */
  lemma QuietFrame(s: TrackerState, f: FrameInput, minArea: real, t: int, doRecognize: bool,
                   service: Snapshot -> Prediction)
    requires LargeCount(f.boxes, minArea) == 0
    ensures Cycle(s, f, minArea, t, doRecognize, service) == Analyse(s, f.now, f.frame, doRecognize, service)
  {
    TrackAllCreatesAtMost(s, f.boxes, minArea, t, f.now);
  }
}
