/**
 * One frame of the camera-tracking loop of `reframe_video`
 * (reframe_mediapipe_falante_v7.py), as a function of the tracker state and
 * of what the two detectors report for the frame, and a run as the fold of
 * that function over the frames read.
 */
module Tracking {
  import opened Wrappers
  import opened Stabilizer
  import opened Speaker
  import opened Cascade

  /** Frame size, fixed for a run. */
  datatype Geometry = Geometry(width: nat, height: nat)

  /**
   * What the detectors report for one frame: the landmark candidates, and the
   * boxes the frontal and the profile cascades would return (consulted only
   * when there is no landmark candidate).
   */
  datatype Observation = Observation(landmarks: seq<Candidate>, frontal: seq<Box>, profile: seq<Box>)

  /**
   * `centro_atual`, `centro_antigo`, `centro_fallback`, `activity_hist`,
   * `centro_history` and `faces_detected_sum`.
   */
  datatype TrackState = TrackState(
    current: Point,
    previous: Point,
    anchor: Option<Point>,
    activity: seq<seq<real>>,
    history: seq<Point>,
    facesDetected: nat)

  /** Both centers start at `(width // 2, height // 2)`; nothing is remembered yet. */
  function Initial(g: Geometry): TrackState {
    var c := Point((g.width / 2) as real, (g.height / 2) as real);
    TrackState(c, c, None, [], [], 0)
  }

  /** The invariant every frame re-establishes: bounded buffers, both centers equal. */
  predicate Settled(s: TrackState) {
    && |s.activity| <= ACTIVITY_WINDOW
    && |s.history| <= CENTER_HISTORY_SIZE
    && s.current == s.previous
  }

  /** Dead zone against the current center, then push and rank-weighted average. */
  function Follow(g: Geometry, s: TrackState, raw: Point): TrackState {
    var gated := ApplyDeadZone(raw, s.current, g.width, g.height);
    var history := PushBounded(s.history, gated, CENTER_HISTORY_SIZE);
    s.(current := WeightedAverage(history), history := history)
  }

  /** `Follow` given the pushed history and its average. */
  lemma FollowWith(g: Geometry, s: TrackState, raw: Point, h: seq<Point>, c: Point)
    requires h == PushBounded(s.history, ApplyDeadZone(raw, s.current, g.width, g.height), CENTER_HISTORY_SIZE)
    requires |h| > 0 && c == WeightedAverage(h)
    ensures Follow(g, s, raw) == s.(current := c, history := h)
  {
  }

  /** The Haar faces of a frame: frontal boxes first, then profile boxes. */
  function HaarFacesOf(obs: Observation): seq<Face> {
    FacesOf(obs.frontal + obs.profile)
  }

  /** The raw center of the best-scoring Haar face. */
  function HaarCenter(faces: seq<Face>, width: nat): Point
    requires |faces| > 0 && width > 0
  {
    var best := faces[BestFace(faces, width)];
    Point(best.cx as real, best.cy as real)
  }

  function LandmarkPath(g: Geometry, s: TrackState, cands: seq<Candidate>): TrackState
    requires |cands| > 0
  {
    var anchor := if s.anchor.None? then Some(cands[NearestToMidline(cands, g.width)].center) else s.anchor;
    var sel := SelectSpeaker(s.activity, cands, g.width);
    Follow(g, s.(anchor := anchor, activity := sel.activity, facesDetected := s.facesDetected + |cands|),
           cands[sel.index].center)
  }

  /** The landmark branch given the updated speaker selection and anchor. */
  lemma LandmarkPathWith(g: Geometry, s: TrackState, cands: seq<Candidate>, sel: Selection, anchor: Option<Point>)
    requires |cands| > 0 && sel == SelectSpeaker(s.activity, cands, g.width)
    requires anchor == if s.anchor.None? then Some(cands[NearestToMidline(cands, g.width)].center) else s.anchor
    ensures LandmarkPath(g, s, cands) ==
            Follow(g, s.(anchor := anchor, activity := sel.activity, facesDetected := s.facesDetected + |cands|),
                   cands[sel.index].center)
  {
  }

  function CascadePath(g: Geometry, s: TrackState, faces: seq<Face>): TrackState
    requires |faces| > 0 && g.width > 0
  {
    var raw := HaarCenter(faces, g.width);
    var anchor := if s.anchor.None? then Some(raw) else s.anchor;
    Follow(g, s.(anchor := anchor, facesDetected := s.facesDetected + |faces|), raw)
  }

  /**
   * The fallback ladder: landmarks, else Haar faces, else the stored anchor
   * (taken as is), else keep the current center. The result's `current` is the
   * target of the exponential step.
   */
  function Ladder(g: Geometry, s: TrackState, obs: Observation): TrackState
    requires g.width > 0
  {
    if |obs.landmarks| > 0 then LandmarkPath(g, s, obs.landmarks)
    else
      var faces := HaarFacesOf(obs);
      if |faces| > 0 then CascadePath(g, s, faces)
      else if s.anchor.Some? then s.(current := s.anchor.value)
      else s
  }

  /** One frame: the ladder, then the exponential step from `centro_antigo`. */
  function Step(g: Geometry, s: TrackState, obs: Observation): TrackState
    requires g.width > 0
  {
    var t := Ladder(g, s, obs);
    var c := ExpStep(s.previous, t.current);
    t.(current := c, previous := c)
  }

  /** The crop rectangle of a frame, from the stabilized center. */
  function Crop(g: Geometry, s: TrackState): Rect {
    CropRect(g.width, g.height, s.current)
  }

  /** The state after processing `frames` in order. */
  function Run(g: Geometry, s: TrackState, frames: seq<Observation>): TrackState
    requires g.width > 0 || frames == []
  {
    if frames == [] then s
    else Step(g, Run(g, s, frames[..|frames| - 1]), frames[|frames| - 1])
  }

  /** One more frame of a run. */
  lemma RunSnoc(g: Geometry, s: TrackState, frames: seq<Observation>, i: nat)
    requires g.width > 0 && i < |frames|
    ensures Run(g, s, frames[..i + 1]) == Step(g, Run(g, s, frames[..i]), frames[i])
    ensures Rects(g, s, frames[..i + 1]) == Rects(g, s, frames[..i]) + [Crop(g, Run(g, s, frames[..i + 1]))]
  {
    assert frames[..i + 1][..i] == frames[..i];
  }

  /** Stepping the state after frame i on frame i, and cropping, extends the run and its crops by one frame. */
  lemma RunStep(g: Geometry, s: TrackState, frames: seq<Observation>, i: nat,
                before: TrackState, after: TrackState, rect: Rect)
    requires g.width > 0 && i < |frames|
    requires before == Run(g, s, frames[..i]) && after == Step(g, before, frames[i])
    requires rect == Crop(g, after)
    ensures after == Run(g, s, frames[..i + 1])
    ensures Rects(g, s, frames[..i]) + [rect] == Rects(g, s, frames[..i + 1])
  {
    RunSnoc(g, s, frames, i);
  }

  /** The crop rectangle written for each frame of a run. */
  function Rects(g: Geometry, s: TrackState, frames: seq<Observation>): (rs: seq<Rect>)
    requires g.width > 0 || frames == []
    ensures |rs| == |frames|
  {
    if frames == [] then []
    else Rects(g, s, frames[..|frames| - 1]) + [Crop(g, Run(g, s, frames))]
  }

  // ---------------------------------------------------------------------
  // Per-frame properties
  // ---------------------------------------------------------------------

  /**
   * A frame keeps both deques within their `maxlen` and leaves
   * `centro_antigo == centro_atual`.
   */
  lemma StepSettles(g: Geometry, s: TrackState, obs: Observation)
    requires g.width > 0
    requires |s.activity| <= ACTIVITY_WINDOW && |s.history| <= CENTER_HISTORY_SIZE
    ensures Settled(Step(g, s, obs))
  {
  }

  /** The anchor a frame offers: the landmark nearest the midline, else the best Haar face. */
  function OfferedAnchor(g: Geometry, obs: Observation): Option<Point>
    requires g.width > 0
  {
    if |obs.landmarks| > 0 then Some(obs.landmarks[NearestToMidline(obs.landmarks, g.width)].center)
    else if |HaarFacesOf(obs)| > 0 then Some(HaarCenter(HaarFacesOf(obs), g.width))
    else None
  }

  /**
   * `centro_fallback` is written only while it is None: a stored anchor is
   * kept; an empty one takes the raw center the frame offers, if any.
   */
  lemma StepAnchor(g: Geometry, s: TrackState, obs: Observation)
    requires g.width > 0
    ensures Step(g, s, obs).anchor == if s.anchor.Some? then s.anchor else OfferedAnchor(g, obs)
  {
  }

  /** `faces_detected_sum` grows by the landmark count, or else by the Haar face count. */
  lemma StepCountsFaces(g: Geometry, s: TrackState, obs: Observation)
    requires g.width > 0
    ensures Step(g, s, obs).facesDetected ==
            s.facesDetected + if |obs.landmarks| > 0 then |obs.landmarks| else |obs.frontal| + |obs.profile|
  {
  }

  /**
   * With nothing detected and an anchor stored, the anchor itself is the
   * target of the exponential step: no dead zone, no weighted average, and
   * neither deque is touched.
   */
  lemma AnchorOnlyFrame(g: Geometry, s: TrackState, obs: Observation)
    requires g.width > 0
    requires |obs.landmarks| == 0 && |obs.frontal| + |obs.profile| == 0 && s.anchor.Some?
    ensures var t := Step(g, s, obs);
            && t.current == ExpStep(s.previous, s.anchor.value)
            && t.history == s.history && t.activity == s.activity
            && t.facesDetected == s.facesDetected
  {
  }

  /** With nothing detected and no anchor yet, a settled state does not move. */
  lemma HoldWithoutAnchor(g: Geometry, s: TrackState, obs: Observation)
    requires g.width > 0 && Settled(s)
    requires |obs.landmarks| == 0 && |obs.frontal| + |obs.profile| == 0 && s.anchor.None?
    ensures Step(g, s, obs) == s
  {
  }

  // ---------------------------------------------------------------------
  // The stabilized center stays inside the frame
  // ---------------------------------------------------------------------

  predicate InFrame(g: Geometry, p: Point) {
    0.0 <= p.x <= g.width as real && 0.0 <= p.y <= g.height as real
  }

  predicate BoxInFrame(g: Geometry, b: Box) {
    && 0 <= b.x && 0 <= b.w && b.x + b.w <= g.width
    && 0 <= b.y && 0 <= b.h && b.y + b.h <= g.height
  }

  /** Every landmark center and every cascade box of the frame lies inside the frame. */
  predicate ObservationInFrame(g: Geometry, obs: Observation) {
    && (forall i :: 0 <= i < |obs.landmarks| ==> InFrame(g, obs.landmarks[i].center))
    && (forall i :: 0 <= i < |obs.frontal| ==> BoxInFrame(g, obs.frontal[i]))
    && (forall i :: 0 <= i < |obs.profile| ==> BoxInFrame(g, obs.profile[i]))
  }

  predicate StateInFrame(g: Geometry, s: TrackState) {
    && InFrame(g, s.current)
    && InFrame(g, s.previous)
    && (s.anchor.Some? ==> InFrame(g, s.anchor.value))
    && (forall i :: 0 <= i < |s.history| ==> InFrame(g, s.history[i]))
  }

  lemma InitialInFrame(g: Geometry)
    ensures StateInFrame(g, Initial(g))
  {
  }

  lemma {:induction false} FollowInFrame(g: Geometry, s: TrackState, raw: Point)
    requires StateInFrame(g, s) && InFrame(g, raw)
    ensures StateInFrame(g, Follow(g, s, raw).(current := s.current))
    ensures InFrame(g, Follow(g, s, raw).current)
  {
    var gated := ApplyDeadZone(raw, s.current, g.width, g.height);
    var h := PushBounded(s.history, gated, CENTER_HISTORY_SIZE);
    forall i | 0 <= i < |h| ensures InFrame(g, h[i]) {
      if i < |h| - 1 {
        assert h[i] == h[..|h| - 1][i] == s.history[|s.history| + 1 - |h| + i];
      }
    }
    WeightedAverageWithin(h, Point(0.0, 0.0), Point(g.width as real, g.height as real));
  }

  lemma HaarCenterInFrame(g: Geometry, obs: Observation)
    requires g.width > 0 && ObservationInFrame(g, obs) && |HaarFacesOf(obs)| > 0
    ensures InFrame(g, HaarCenter(HaarFacesOf(obs), g.width))
  {
    var boxes := obs.frontal + obs.profile;
    var k := BestFace(HaarFacesOf(obs), g.width);
    assert BoxInFrame(g, boxes[k]) by {
      if k >= |obs.frontal| {
        assert boxes[k] == obs.profile[k - |obs.frontal|];
      }
    }
    FaceCenterInsideBox(boxes[k]);
  }

  /**
   * If the detections lie inside the frame, so does every stabilized center,
   * the stored anchor and the whole center history.
   */
  lemma StepStaysInFrame(g: Geometry, s: TrackState, obs: Observation)
    requires g.width > 0 && StateInFrame(g, s) && ObservationInFrame(g, obs)
    ensures StateInFrame(g, Step(g, s, obs))
  {
    var t := Ladder(g, s, obs);
    if |obs.landmarks| > 0 {
      var cands := obs.landmarks;
      var anchor := if s.anchor.None? then Some(cands[NearestToMidline(cands, g.width)].center) else s.anchor;
      var sel := SelectSpeaker(s.activity, cands, g.width);
      FollowInFrame(g, s.(anchor := anchor, activity := sel.activity, facesDetected := s.facesDetected + |cands|),
                    cands[sel.index].center);
    } else if |HaarFacesOf(obs)| > 0 {
      var faces := HaarFacesOf(obs);
      HaarCenterInFrame(g, obs);
      var raw := HaarCenter(faces, g.width);
      var anchor := if s.anchor.None? then Some(raw) else s.anchor;
      FollowInFrame(g, s.(anchor := anchor, facesDetected := s.facesDetected + |faces|), raw);
    }
    assert InFrame(g, t.current) && InFrame(g, s.previous);
    var c := ExpStep(s.previous, t.current);
    assert InFrame(g, c);
  }

  // ---------------------------------------------------------------------
  // A face that does not move keeps the camera still
  // ---------------------------------------------------------------------

  predicate StillAt(s: TrackState, p: Point) {
    && s.current == p && s.previous == p
    && forall i :: 0 <= i < |s.history| ==> s.history[i] == p
  }

  predicate AllLandmarksAt(obs: Observation, p: Point) {
    |obs.landmarks| > 0 && forall i :: 0 <= i < |obs.landmarks| ==> obs.landmarks[i].center == p
  }

  /**
   * Whichever landmark is chosen, if every candidate sits on the current
   * center and the history holds only that point, the frame ends where it started.
   */
  lemma {:induction false} StillFaceStaysStill(g: Geometry, s: TrackState, obs: Observation, p: Point)
    requires g.width > 0 && StillAt(s, p) && AllLandmarksAt(obs, p)
    ensures StillAt(Step(g, s, obs), p)
  {
    var cands := obs.landmarks;
    var anchor := if s.anchor.None? then Some(cands[NearestToMidline(cands, g.width)].center) else s.anchor;
    var sel := SelectSpeaker(s.activity, cands, g.width);
    var gated := ApplyDeadZone(cands[sel.index].center, p, g.width, g.height);
    assert gated == p;
    var h := PushBounded(s.history, gated, CENTER_HISTORY_SIZE);
    forall i | 0 <= i < |h| ensures h[i] == p {
      if i < |h| - 1 {
        assert h[i] == h[..|h| - 1][i] == s.history[|s.history| + 1 - |h| + i];
      }
    }
    WeightedAverageOfConstant(h, p);
  }

  // ---------------------------------------------------------------------
  // Whole runs
  // ---------------------------------------------------------------------

  lemma {:induction false} RunKeepsAnchor(g: Geometry, s: TrackState, frames: seq<Observation>)
    requires g.width > 0 && s.anchor.Some?
    ensures Run(g, s, frames).anchor == s.anchor
  {
    if frames != [] {
      RunKeepsAnchor(g, s, frames[..|frames| - 1]);
      StepAnchor(g, Run(g, s, frames[..|frames| - 1]), frames[|frames| - 1]);
    }
  }

  /** Running two stretches of frames one after the other is running their concatenation. */
  lemma {:induction false} RunAppend(g: Geometry, s: TrackState, a: seq<Observation>, b: seq<Observation>)
    requires g.width > 0
    ensures Run(g, s, a + b) == Run(g, Run(g, s, a), b)
    decreases |b|
  {
    if b == [] {
      assert a + b == a;
    } else {
      var init, o := b[..|b| - 1], b[|b| - 1];
      RunAppend(g, s, a, init);
      assert (a + b)[..|a + b| - 1] == a + init;
      calc {
        Run(g, s, a + b);
        Step(g, Run(g, s, a + init), o);
        Step(g, Run(g, Run(g, s, a), init), o);
        Run(g, Run(g, s, a), b);
      }
    }
  }

  /** Frames run after the anchor is set leave it as it is. */
  lemma RunAppendKeepsAnchor(g: Geometry, s: TrackState, a: seq<Observation>, b: seq<Observation>)
    requires g.width > 0 && Run(g, s, a).anchor.Some?
    ensures Run(g, s, a + b).anchor == Run(g, s, a).anchor
  {
    RunAppend(g, s, a, b);
    RunKeepsAnchor(g, Run(g, s, a), b);
  }

  /** Anchor write-once over a run: once set after frame i, it is the same after every later frame. */
  lemma RunAnchorWriteOnce(g: Geometry, s: TrackState, frames: seq<Observation>, i: nat, j: nat)
    requires g.width > 0 && i <= j <= |frames|
    requires Run(g, s, frames[..i]).anchor.Some?
    ensures Run(g, s, frames[..j]).anchor == Run(g, s, frames[..i]).anchor
  {
    assert frames[..j] == frames[..i] + frames[i..j];
    RunAppendKeepsAnchor(g, s, frames[..i], frames[i..j]);
  }

  /** A run in which no frame detects anything leaves an empty anchor empty. */
  lemma {:induction false} RunWithoutDetectionHasNoAnchor(g: Geometry, s: TrackState, frames: seq<Observation>)
    requires g.width > 0 && s.anchor.None?
    requires forall i :: 0 <= i < |frames| ==> OfferedAnchor(g, frames[i]).None?
    ensures Run(g, s, frames).anchor.None?
  {
    if frames != [] {
      var init := frames[..|frames| - 1];
      RunWithoutDetectionHasNoAnchor(g, s, init);
      StepAnchor(g, Run(g, s, init), frames[|frames| - 1]);
    }
  }

  /**
   * The anchor is the raw center offered by the first frame with any detection,
   * and it is still that value at the end of the run.
   */
  lemma {:induction false} RunAnchorFromFirstDetection(g: Geometry, s: TrackState, frames: seq<Observation>, k: nat)
    requires g.width > 0 && s.anchor.None? && k < |frames|
    requires forall i :: 0 <= i < k ==> OfferedAnchor(g, frames[i]).None?
    requires OfferedAnchor(g, frames[k]).Some?
    ensures Run(g, s, frames[..k]).anchor.None?
    ensures Run(g, s, frames).anchor == OfferedAnchor(g, frames[k])
  {
    RunWithoutDetectionHasNoAnchor(g, s, frames[..k]);
    assert frames[..k + 1][..k] == frames[..k];
    StepAnchor(g, Run(g, s, frames[..k]), frames[k]);
    RunAnchorWriteOnce(g, s, frames, k + 1, |frames|);
    assert frames[..|frames|] == frames;
  }

  /**
   * Every state of a run is settled, whatever the detector returns, and it
   * stays in the frame when the detections do.
   */
  lemma {:induction false} RunInvariant(g: Geometry, frames: seq<Observation>)
    requires g.width > 0
    ensures Settled(Run(g, Initial(g), frames))
    ensures (forall i :: 0 <= i < |frames| ==> ObservationInFrame(g, frames[i])) ==>
              StateInFrame(g, Run(g, Initial(g), frames))
  {
    if frames == [] {
      InitialInFrame(g);
    } else {
      var init, last := frames[..|frames| - 1], frames[|frames| - 1];
      RunInvariant(g, init);
      StepSettles(g, Run(g, Initial(g), init), last);
      if forall i :: 0 <= i < |frames| ==> ObservationInFrame(g, frames[i]) {
        assert forall i :: 0 <= i < |init| ==> init[i] == frames[i];
        StepStaysInFrame(g, Run(g, Initial(g), init), last);
      }
    }
  }

  /**
   * A single face held at the frame center: every frame's crop is the one
   * computed from the frame center, and the camera never moves.
   */
  lemma {:induction false} StillCenteredFace(g: Geometry, frames: seq<Observation>)
    requires g.width > 0
    requires forall i :: 0 <= i < |frames| ==> AllLandmarksAt(frames[i], Initial(g).current)
    ensures StillAt(Run(g, Initial(g), frames), Initial(g).current)
    ensures forall i :: 0 <= i < |frames| ==>
              Rects(g, Initial(g), frames)[i] == CropRect(g.width, g.height, Initial(g).current)
  {
    var p := Initial(g).current;
    if frames != [] {
      var init := frames[..|frames| - 1];
      StillCenteredFace(g, init);
      StillFaceStaysStill(g, Run(g, Initial(g), init), frames[|frames| - 1], p);
      assert Rects(g, Initial(g), frames) == Rects(g, Initial(g), init) + [Crop(g, Run(g, Initial(g), frames))];
    }
  }
}
