/** The data model of the motion tracker: boxes, tracked objects, snapshots,
    recognition results, the summary canvas, and the state a `Detection`
    object carries between calls, with the invariants that state keeps. */
module Objects {

  datatype Option<T> = None | Some(value: T)

  /** A captured video frame stands for itself only through its position in
      the stream; the pixels are not modelled. */
  type FrameId = nat

  /** A bounding box in resized-frame coordinates. */
  datatype Box = Box(x: int, y: int, w: int, h: int)

  /** The pixel region `box` of the raw (undecorated) frame `frame`. */
  datatype Snapshot = Snapshot(frame: FrameId, region: Box)

  /** One entry of the tracked-object table. The box is the one the object was
      created with (the tracker never moves it); times are whole seconds. */
  datatype TrackedObject = TrackedObject(
    box: Box,
    firstSeen: int,
    lastSeen: int,
    img: Option<Snapshot>,
    recognition: seq<string>)

  /** What the recognition service answers: a status code and the concept
      names, most relevant first. */
  datatype Prediction = Prediction(statusCode: int, concepts: seq<string>)

  /** A label drawn on the summary canvas, at vertical position `top`. */
  datatype Caption = Caption(text: string, top: int)

  /** One confirmed object drawn on the summary canvas at horizontal offset `left`. */
  datatype Tile = Tile(id: nat, left: int, img: Option<Snapshot>, captions: seq<Caption>)

  /** A contour found in a frame: its bounding box (whole pixels) and its
      area, a real number as the contour-area computation returns. */
  datatype Detected = Detected(box: Box, area: real)

  /** Everything a `Detection` object keeps between calls. `order` is the key
      order of the object table (a dictionary iterates in insertion order),
      `summary` the content of the found-objects canvas, `calls` how many times
      recognition was requested for each id, `clock` the time of the latest call. */
  datatype TrackerState = TrackerState(
    objects: map<nat, TrackedObject>,
    order: seq<nat>,
    lastObjectId: nat,
    summary: seq<Tile>,
    calls: multiset<nat>,
    clock: int)

  const DEFAULT_MIN_OBJECT_AREA: real := 200.0
  const DEFAULT_MOVEMENT_THRESHOLD: int := 10

  /** The label loop stops once its counter exceeds LABEL_CUTOFF, after the
      append, so at most LABEL_CUTOFF + 1 labels are kept. */
  const LABEL_CUTOFF: nat := 5
  const MAX_LABELS: nat := LABEL_CUTOFF + 1

  predicate Increasing(s: seq<nat>)
  {
    forall i, j :: 0 <= i < j < |s| ==> s[i] < s[j]
  }

  /** The elements of `s`. */
  function Members(s: seq<nat>): (r: set<nat>)
    ensures forall x :: x in r <==> x in s
  {
    set x | x in s
  }

  lemma MembersAppend(s: seq<nat>, x: nat)
    ensures Members(s + [x]) == Members(s) + {x}
  {
  }

  lemma RemoveOneMore<T>(m: map<nat, T>, d: set<nat>, x: nat)
    ensures (m - d) - {x} == m - (d + {x})
  {
  }

  /** `s` without the elements of `d`, order kept. */
  function Without(s: seq<nat>, d: set<nat>): (r: seq<nat>)
    ensures forall x :: x in r <==> x in s && x !in d
    ensures Increasing(s) ==> Increasing(r)
  {
    if s == [] then []
    else
      var rest := Without(s[1..], d);
      IncreasingTail(s);
      if s[0] in d then rest
      else
        IncreasingCons(s[0], rest);
        [s[0]] + rest
  }

  lemma IncreasingCons(x: nat, s: seq<nat>)
    ensures Increasing(s) && (forall y :: y in s ==> x < y) ==> Increasing([x] + s)
  {
    if Increasing(s) && (forall y :: y in s ==> x < y) {
      forall i, j | 0 <= i < j < |[x] + s| ensures ([x] + s)[i] < ([x] + s)[j] {
        assert ([x] + s)[j] == s[j - 1] && s[j - 1] in s;
        if i > 0 {
          assert ([x] + s)[i] == s[i - 1];
        }
      }
    }
  }

  lemma IncreasingTail(s: seq<nat>)
    requires s != []
    ensures Increasing(s) ==> Increasing(s[1..]) && forall x :: x in s[1..] ==> s[0] < x
  {
    if Increasing(s) {
      forall i, j | 0 <= i < j < |s[1..]| ensures s[1..][i] < s[1..][j] {
        assert s[1..][i] == s[i + 1] && s[1..][j] == s[j + 1];
      }
      forall x | x in s[1..] ensures s[0] < x {
        var i :| 0 <= i < |s[1..]| && s[1..][i] == x;
        assert s[1..][i] == s[i + 1];
      }
    }
  }

  /** The shape of the table: keys and key order agree, ids ascend in
      insertion order, and every id was handed out by the counter. */
  ghost predicate Wellformed(s: TrackerState)
  {
    && Increasing(s.order)
    && (forall id :: id in s.objects <==> id in s.order)
    && (forall id :: id in s.objects ==> 1 <= id <= s.lastObjectId)
  }

  /** The recognition invariant, which holds whatever the clock does:
      recognition was requested at most once per id and only for ids already
      handed out, an object without a snapshot was never recognized and has
      no labels, and no object has more than MAX_LABELS labels. */
  ghost predicate Once(s: TrackerState)
  {
    && (forall id :: id in s.calls ==> 1 <= id <= s.lastObjectId && s.calls[id] == 1)
    && (forall id :: id in s.objects && s.objects[id].img.None? ==>
          id !in s.calls && s.objects[id].recognition == [])
    && (forall id :: id in s.objects ==> |s.objects[id].recognition| <= MAX_LABELS)
  }

  /** The time invariant: every object was first seen no later than it was
      last seen, and last seen no later than the latest call. */
  ghost predicate Timed(s: TrackerState)
  {
    forall id :: id in s.objects ==> s.objects[id].firstSeen <= s.objects[id].lastSeen <= s.clock
  }

  /** The lifecycle invariant: both of the above. */
  ghost predicate Healthy(s: TrackerState)
  {
    Timed(s) && Once(s)
  }

  lemma {:induction false} WithoutNothing(s: seq<nat>)
    ensures Without(s, {}) == s
  {
    if s != [] {
      WithoutNothing(s[1..]);
    }
  }

  lemma {:induction false} WithoutWithout(s: seq<nat>, a: set<nat>, b: set<nat>)
    ensures Without(Without(s, a), b) == Without(s, a + b)
  {
    if s != [] {
      WithoutWithout(s[1..], a, b);
      if s[0] !in a {
        assert Without(s, a)[0] == s[0];
        assert Without(s, a)[1..] == Without(s[1..], a);
      } else {
        assert Without(s, a) == Without(s[1..], a);
      }
    }
  }

  /** In a sequence without repetitions every element occurs exactly once. */
  lemma {:induction false} IncreasingCount(s: seq<nat>, x: nat)
    requires Increasing(s)
    ensures multiset(s)[x] == if x in s then 1 else 0
  {
    if s != [] {
      assert s == [s[0]] + s[1..];
      IncreasingTail(s);
      IncreasingCount(s[1..], x);
      assert multiset(s) == multiset{s[0]} + multiset(s[1..]);
    }
  }
}
