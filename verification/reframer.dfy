/**
 * The frame loop of `reframe_video` (reframe_mediapipe_falante_v7.py) as
 * imperative code: a tracker object whose fields are the loop's local
 * state, updated frame by frame, and the driver that feeds it the frames,
 * collects the crop rectangles and emits progress events. Each frame is
 * proved to perform exactly the step `Tracking.Step` specifies.
 */
module Reframer {
  import opened Wrappers
  import opened Stabilizer
  import opened Speaker
  import opened Cascade
  import opened Tracking

  /** One more entry of the one-pass accumulation of `_smooth_center`. */
  lemma AccumulateStep(h: seq<Point>, n: nat, i: nat)
    requires n == |h| && i < n
    ensures TotalWeight(n, i + 1) == TotalWeight(n, i) + Weight(i, n)
    ensures WeightedSum(Xs(h), n, i + 1) == WeightedSum(Xs(h), n, i) + h[i].x * Weight(i, n)
    ensures WeightedSum(Ys(h), n, i + 1) == WeightedSum(Ys(h), n, i) + h[i].y * Weight(i, n)
  {
    assert Xs(h)[i] == h[i].x && Ys(h)[i] == h[i].y;
  }

  lemma WeightedAverageUnfold(h: seq<Point>)
    requires |h| > 1
    ensures TotalWeight(|h|, |h|) > 0.0
    ensures WeightedAverage(h) == Point(WeightedSum(Xs(h), |h|, |h|) / TotalWeight(|h|, |h|),
                                        WeightedSum(Ys(h), |h|, |h|) / TotalWeight(|h|, |h|))
  {
    TotalWeightPositive(|h|);
  }

  /**
   * The loop of `_smooth_center` for a history of two or more entries: the
   * weights `1..n` and the weighted coordinates accumulated in one pass, then
   * divided by the total weight.
   */
  method WeightedMean(h: seq<Point>) returns (r: Point)
    requires |h| > 1
    ensures r == WeightedAverage(h)
  {
    var n := |h|;
    var totalWeight, sumX, sumY := 0.0, 0.0, 0.0;
    var i := 0;
    while i < n
      invariant 0 <= i <= n
      invariant totalWeight == TotalWeight(n, i)
      invariant sumX == WeightedSum(Xs(h), n, i)
      invariant sumY == WeightedSum(Ys(h), n, i)
    {
      var weight := Weight(i, n);
      AccumulateStep(h, n, i);
      totalWeight := totalWeight + weight;
      sumX := sumX + h[i].x * weight;
      sumY := sumY + h[i].y * weight;
      i := i + 1;
    }
    WeightedAverageUnfold(h);
    r := Point(sumX / totalWeight, sumY / totalWeight);
  }

  /** The per-frame tracker: `centro_atual`, `centro_antigo`, `centro_fallback` and the two deques. */
  class Tracker {
    const geometry: Geometry
    var current: Point
    var previous: Point
    var anchor: Option<Point>
    var activity: seq<seq<real>>
    var history: seq<Point>
    var facesDetected: nat

    /** The abstract state the fields hold. */
    function State(): TrackState
      reads this
    {
      TrackState(current, previous, anchor, activity, history, facesDetected)
    }

    constructor(g: Geometry)
      ensures geometry == g && State() == Initial(g)
    {
      geometry := g;
      current := Point((g.width / 2) as real, (g.height / 2) as real);
      previous := Point((g.width / 2) as real, (g.height / 2) as real);
      anchor := None;
      activity := [];
      history := [];
      facesDetected := 0;
    }

    /**
     * `_smooth_center`: appends the gated center to the bounded history and
     * returns the rank-weighted average of the history.
     */
    method SmoothCenter(detected: Point) returns (r: Point)
      modifies this`history
      ensures history == PushBounded(old(history), detected, CENTER_HISTORY_SIZE)
      ensures r == WeightedAverage(history)
    {
      var h := PushBounded(history, detected, CENTER_HISTORY_SIZE);
      history := h;
      if |h| == 1 {
        return detected;
      }
      r := WeightedMean(h);
    }

    /** Dead zone against the current center, then `_smooth_center`; the result is the new current center. */
    method FollowCenter(raw: Point)
      modifies this
      ensures State() == Follow(geometry, old(State()), raw)
    {
      ghost var s := State();
      var gated := ApplyDeadZone(raw, current, geometry.width, geometry.height);
      current := SmoothCenter(gated);
      assert previous == s.previous && anchor == s.anchor;
      assert activity == s.activity && facesDetected == s.facesDetected;
      FollowWith(geometry, s, raw, history, current);
    }

    /** The landmark branch: count, anchor, speaker selection, then follow the chosen face. */
    method TrackLandmarks(cands: seq<Candidate>)
      requires |cands| > 0
      modifies this
      ensures State() == LandmarkPath(geometry, old(State()), cands)
    {
      ghost var s := State();
      var sel := SelectSpeaker(activity, cands, geometry.width);
      var newAnchor := if anchor.None? then Some(cands[NearestToMidline(cands, geometry.width)].center) else anchor;
      anchor, activity, facesDetected := newAnchor, sel.activity, facesDetected + |cands|;
      LandmarkPathWith(geometry, s, cands, sel, newAnchor);
      ghost var mid := State();
      assert mid == s.(anchor := newAnchor, activity := sel.activity, facesDetected := s.facesDetected + |cands|);
      FollowCenter(cands[sel.index].center);
    }

    /** The Haar branch: count, best-scoring face, anchor, then follow that face. */
    method TrackFaces(faces: seq<Face>)
      requires |faces| > 0 && geometry.width > 0
      modifies this
      ensures State() == CascadePath(geometry, old(State()), faces)
    {
      ghost var s := State();
      var best := faces[BestFace(faces, geometry.width)];
      var raw := Point(best.cx as real, best.cy as real);
      assert raw == HaarCenter(faces, geometry.width);
      var newAnchor := if anchor.None? then Some(raw) else anchor;
      anchor, facesDetected := newAnchor, facesDetected + |faces|;
      ghost var mid := State();
      assert mid == s.(anchor := newAnchor, facesDetected := s.facesDetected + |faces|);
      FollowCenter(raw);
    }

    /**
     * One iteration of the frame loop: landmarks, else Haar faces, else the
     * anchor, then the exponential step; returns the crop rectangle.
     */
    method Step(obs: Observation) returns (rect: Rect)
      requires geometry.width > 0
      modifies this
      ensures State() == Tracking.Step(geometry, old(State()), obs)
      ensures rect == Crop(geometry, State())
    {
      if |obs.landmarks| > 0 {
        TrackLandmarks(obs.landmarks);
      } else {
        var faces := DetectFacesHaar(obs.frontal, obs.profile);
        assert faces == HaarFacesOf(obs);
        if |faces| > 0 {
          TrackFaces(faces);
        } else if anchor.Some? {
          current := anchor.value;
        }
      }
      assert State() == Ladder(geometry, old(State()), obs);
      current := ExpStep(previous, current);
      previous := current;
      rect := CropRect(geometry.width, geometry.height, current);
    }
  }

  // ---------------------------------------------------------------------
  // The run: progress events, crop rectangles and metrics
  // ---------------------------------------------------------------------

  /** A call of the progress callback: stage, fraction and, while reframing, frame and total. */
  datatype ProgressEvent =
    | Reframing(progress: real, frame: nat, totalFrames: int)
    | Muxing(progress: real)

  /** The dictionary `reframe_video` returns. */
  datatype Metrics = Metrics(framesProcessed: int, fps: real, facesDetectedSum: nat, status: string)

  /** `int(CAP_PROP_FRAME_COUNT) or 1`: a zero frame count is read as one frame. */
  function TotalFrames(frameCount: int): int {
    if frameCount == 0 then 1 else frameCount
  }

  /** `CAP_PROP_FPS or 24.0`. */
  function FpsOrDefault(fps: real): real {
    if fps == 0.0 then 24.0 else fps
  }

  /**
   * How many frames the loop processes: `range(total)`, cut short by the
   * first failed read once the decoder runs out of frames.
   */
  function FramesRead(total: int, available: nat): (n: nat)
    ensures n <= available && (total >= 0 ==> n <= total)
    ensures total <= 0 ==> n == 0
    ensures total > 0 ==> n == total || n == available
  {
    if total <= 0 then 0 else if available < total then available else total
  }

  /** `min(0.999, i / max(1, total))`. */
  function ReportProgress(i: nat, total: int): real {
    var p := i as real / (if total < 1 then 1 else total) as real;
    if p < 0.999 then p else 0.999
  }

  /** The `"reframing"` events of the first n frames: one for every frame index divisible by 50. */
  function ReframingReports(n: nat, total: int): seq<ProgressEvent> {
    if n == 0 then []
    else
      ReframingReports(n - 1, total) +
      (if (n - 1) % 50 == 0 then [Reframing(ReportProgress(n - 1, total), n - 1, total)] else [])
  }

  /** Every reported fraction lies in [0, 0.999]. */
  lemma ReportProgressRange(i: nat, total: int)
    ensures 0.0 <= ReportProgress(i, total) <= 0.999
  {
  }

  /** A later frame never reports a smaller fraction. */
  lemma ReportProgressMonotone(i: nat, j: nat, total: int)
    requires i <= j
    ensures ReportProgress(i, total) <= ReportProgress(j, total)
  {
    var d := (if total < 1 then 1 else total) as real;
    DivideMonotone(i as real, j as real, d);
  }

  /**
   * The reframing events of n frames: one per block of 50 frames, the k-th
   * for frame 50k with that frame's fraction.
   */
  lemma {:induction false} ReframingReportsShape(n: nat, total: int)
    ensures |ReframingReports(n, total)| == (n + 49) / 50
    ensures forall k :: 0 <= k < |ReframingReports(n, total)| ==>
              ReframingReports(n, total)[k] == Reframing(ReportProgress(50 * k, total), 50 * k, total)
  {
    if n > 0 {
      ReframingReportsShape(n - 1, total);
    }
  }

  /** Reframing fractions are bounded by 0.999 and non-decreasing along the events. */
  lemma ReframingProgressMonotone(n: nat, total: int)
    ensures var r := ReframingReports(n, total);
            forall a, b :: 0 <= a <= b < |r| ==> 0.0 <= r[a].progress <= r[b].progress <= 0.999
  {
    var r := ReframingReports(n, total);
    ReframingReportsShape(n, total);
    forall a, b | 0 <= a <= b < |r| ensures 0.0 <= r[a].progress <= r[b].progress <= 0.999 {
      ReportProgressRange(50 * a, total);
      ReportProgressRange(50 * b, total);
      ReportProgressMonotone(50 * a, 50 * b, total);
    }
  }

  /** The `"muxing"` events: 0.0 before the mux, 1.0 only when the mux succeeds. */
  function MuxingReports(muxSucceeds: bool): seq<ProgressEvent> {
    [Muxing(0.0)] + if muxSucceeds then [Muxing(1.0)] else []
  }

  /**
   * `reframe_video` on a decoded clip: `frames` is what the decoder yields,
   * `frameCount` and `fps` what the container reports, and `muxSucceeds`
   * whether the external audio mux succeeds (a failure raises, so there are
   * no metrics). Returns the metrics, the crop rectangle written for each
   * frame, and the progress events in the order they are emitted.
   */
  method ReframeVideo(width: nat, height: nat, frameCount: int, fps: real,
                      frames: seq<Observation>, muxSucceeds: bool)
    returns (metrics: Option<Metrics>, rects: seq<Rect>, events: seq<ProgressEvent>)
    requires width > 0 || frames == []
    ensures var total := TotalFrames(frameCount);
            var n := FramesRead(total, |frames|);
            var g := Geometry(width, height);
            && rects == Rects(g, Initial(g), frames[..n])
            && events == ReframingReports(n, total) + MuxingReports(muxSucceeds)
            && metrics == if muxSucceeds
                          then Some(Metrics(total, FpsOrDefault(fps), Run(g, Initial(g), frames[..n]).facesDetected, "success"))
                          else None
  {
    var g := Geometry(width, height);
    var total := TotalFrames(frameCount);
    var facesDetected;
    facesDetected, rects, events := ReframeFrames(g, total, frames);
    events := events + [Muxing(0.0)];
    if !muxSucceeds {
      return None, rects, events;
    }
    events := events + [Muxing(1.0)];
    metrics := Some(Metrics(total, FpsOrDefault(fps), facesDetected, "success"));
  }

  /**
   * The frame loop of `reframe_video`: reads up to `total` frames, steps the
   * tracker on each, writes its crop, and reports progress every 50 frames.
   * Returns the running face count, the crops and the "reframing" events.
   */
  method ReframeFrames(g: Geometry, total: int, frames: seq<Observation>)
    returns (facesDetected: nat, rects: seq<Rect>, events: seq<ProgressEvent>)
    requires g.width > 0 || frames == []
    ensures var n := FramesRead(total, |frames|);
            && rects == Rects(g, Initial(g), frames[..n])
            && events == ReframingReports(n, total)
            && facesDetected == Run(g, Initial(g), frames[..n]).facesDetected
  {
    ghost var n := FramesRead(total, |frames|);
    var tracker := new Tracker(g);
    rects, events := [], [];
    var i := 0;
    ghost var state := tracker.State();
    while i < total
      invariant 0 <= i <= n
      invariant tracker.geometry == g
      invariant tracker.State() == state
      invariant state == Run(g, Initial(g), frames[..i])
      invariant rects == Rects(g, Initial(g), frames[..i])
      invariant events == ReframingReports(i, total)
    {
      if i >= |frames| {
        break;
      }
      var rect := tracker.Step(frames[i]);
      RunStep(g, Initial(g), frames, i, state, tracker.State(), rect);
      state := tracker.State();
      rects := rects + [rect];
      if i % 50 == 0 {
        events := events + [Reframing(ReportProgress(i, total), i, total)];
      }
      i := i + 1;
    }
    assert i == n;
    facesDetected := tracker.facesDetected;
  }
}
