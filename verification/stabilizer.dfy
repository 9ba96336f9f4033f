/**
 * The temporal stabilizer of reframe_mediapipe_falante_v7.py: dead zone,
 * rank-weighted moving average over a bounded history, exponential step,
 * and the clamped crop rectangle computed from the stabilized center.
 * Pixel coordinates are exact rationals.
 */
module Stabilizer {

  /** A point in frame coordinates. */
  datatype Point = Point(x: real, y: real)

  /** The crop window: top-left corner and size, in whole pixels. */
  datatype Rect = Rect(x1: int, y1: int, w: int, h: int)

  const DEAD_ZONE_THRESHOLD_X: real := 0.03
  const DEAD_ZONE_THRESHOLD_Y: real := 0.03
  const SMOOTH_ALPHA: real := 0.08
  const CENTER_HISTORY_SIZE: nat := 5

  function Abs(r: real): real { if r < 0.0 then -r else r }

  function Min(a: int, b: int): int { if a < b then a else b }

  function Max(a: int, b: int): int { if a < b then b else a }

  /** `v` lies on the segment between `a` and `b` (in either order). */
  predicate Between(a: real, b: real, v: real) {
    (a <= v <= b) || (b <= v <= a)
  }

  // ---------------------------------------------------------------------
  // Dead zone (_apply_dead_zone)
  // ---------------------------------------------------------------------

  /** Both displacements are strictly below 3% of the frame size. */
  predicate InDeadZone(detected: Point, current: Point, width: nat, height: nat) {
    && Abs(detected.x - current.x) < width as real * DEAD_ZONE_THRESHOLD_X
    && Abs(detected.y - current.y) < height as real * DEAD_ZONE_THRESHOLD_Y
  }

  /**
   * Keeps the current center unless the detection moved by at least the
   * threshold on some axis; then the detection is taken unchanged.
   */
  function ApplyDeadZone(detected: Point, current: Point, width: nat, height: nat): (r: Point)
    ensures InDeadZone(detected, current, width, height) ==> r == current
    ensures !InDeadZone(detected, current, width, height) ==> r == detected
    ensures r == current ||
            (r == detected &&
             (Abs(detected.x - current.x) >= width as real * DEAD_ZONE_THRESHOLD_X ||
              Abs(detected.y - current.y) >= height as real * DEAD_ZONE_THRESHOLD_Y))
  {
    if InDeadZone(detected, current, width, height) then current else detected
  }

  /** The gate never moves the center further than the detection itself does. */
  lemma DeadZoneNeverOvershoots(detected: Point, current: Point, width: nat, height: nat)
    ensures var r := ApplyDeadZone(detected, current, width, height);
            && Abs(r.x - current.x) <= Abs(detected.x - current.x)
            && Abs(r.y - current.y) <= Abs(detected.y - current.y)
  {
  }

  /** Gating an already gated center against the same reference changes nothing. */
  lemma DeadZoneIdempotent(detected: Point, current: Point, width: nat, height: nat)
    ensures var r := ApplyDeadZone(detected, current, width, height);
            ApplyDeadZone(r, current, width, height) == r
  {
  }

  // ---------------------------------------------------------------------
  // Bounded deque (collections.deque with maxlen)
  // ---------------------------------------------------------------------

  /** `append` on a deque with `maxlen == cap`: the oldest entries fall off the left. */
  function PushBounded<T>(buf: seq<T>, item: T, cap: nat): (r: seq<T>)
    requires cap > 0
    ensures |r| == if |buf| < cap then |buf| + 1 else cap
    ensures r[|r| - 1] == item
  {
    var t := buf + [item];
    if |t| > cap then t[|t| - cap..] else t
  }

  /** Everything before the new item is the newest part of the old buffer. */
  lemma PushBoundedKeeps<T>(buf: seq<T>, item: T, cap: nat)
    requires cap > 0
    ensures var r := PushBounded(buf, item, cap);
            r[..|r| - 1] == buf[|buf| + 1 - |r|..]
  {
  }

  // ---------------------------------------------------------------------
  // Rank-weighted moving average (_smooth_center)
  // ---------------------------------------------------------------------

  /** Weight of the i-th oldest of n entries: (i + 1) / n. */
  function Weight(i: nat, n: nat): real
    requires n > 0
  {
    (i + 1) as real / n as real
  }

  /** Sum of the first k weights. */
  function TotalWeight(n: nat, k: nat): real
    requires n > 0
  {
    if k == 0 then 0.0 else TotalWeight(n, k - 1) + Weight(k - 1, n)
  }

  /** The weights of n entries add up to (n + 1) / 2: the closed form k(k+1)/(2n) at k = n. */
  lemma {:induction false} TotalWeightClosedForm(n: nat, k: nat)
    requires n > 0
    ensures TotalWeight(n, k) == (k * (k + 1)) as real / (2 * n) as real
  {
    if k > 0 {
      TotalWeightClosedForm(n, k - 1);
      var a := ((k - 1) * k) as real;
      var d := (2 * n) as real;
      assert (k * (k + 1)) as real == a + (2 * k) as real;
      assert Weight(k - 1, n) == (2 * k) as real / d;
    }
  }

  lemma TotalWeightPositive(n: nat)
    requires n > 0
    ensures TotalWeight(n, n) > 0.0
  {
    TotalWeightClosedForm(n, n);
    assert (n * (n + 1)) as real > 0.0;
  }

  /** Sum of the first k coordinates, each times its weight. */
  function WeightedSum(s: seq<real>, n: nat, k: nat): real
    requires n > 0 && k <= |s|
  {
    if k == 0 then 0.0 else WeightedSum(s, n, k - 1) + s[k - 1] * Weight(k - 1, n)
  }

  function Xs(h: seq<Point>): (xs: seq<real>)
    ensures |xs| == |h| && forall i :: 0 <= i < |h| ==> xs[i] == h[i].x
  {
    seq(|h|, i requires 0 <= i < |h| => h[i].x)
  }

  function Ys(h: seq<Point>): (ys: seq<real>)
    ensures |ys| == |h| && forall i :: 0 <= i < |h| ==> ys[i] == h[i].y
  {
    seq(|h|, i requires 0 <= i < |h| => h[i].y)
  }

  /**
   * The smoothed center of a non-empty history: the single entry itself, or
   * the rank-weighted average normalised by the total weight.
   */
  function WeightedAverage(h: seq<Point>): Point
    requires |h| > 0
  {
    if |h| == 1 then h[0]
    else
      var n := |h|;
      var tw := TotalWeight(n, n);
      TotalWeightPositive(n);
      Point(WeightedSum(Xs(h), n, n) / tw, WeightedSum(Ys(h), n, n) / tw)
  }

  lemma WeightNonNegative(i: nat, n: nat)
    requires n > 0
    ensures Weight(i, n) >= 0.0
  {
  }

  /** One accumulation step keeps a lower and an upper bound: lo*t <= a implies lo*(t+w) <= a + x*w. */
  lemma AccumulateBounds(lo: real, hi: real, a: real, t: real, x: real, w: real, tw: real)
    requires lo * t <= a <= hi * t
    requires lo <= x <= hi && w >= 0.0 && tw == t + w
    ensures lo * tw <= a + x * w <= hi * tw
  {
    assert lo * w <= x * w;
    assert x * w <= hi * w;
    assert lo * tw == lo * t + lo * w;
    assert hi * tw == hi * t + hi * w;
  }

  /** The accumulation step of `WeightedSum` keeps the bounds. */
  lemma WeightedSumStep(s: seq<real>, n: nat, k: nat, lo: real, hi: real)
    requires n > 0 && 0 < k <= |s| && lo <= s[k - 1] <= hi
    requires lo * TotalWeight(n, k - 1) <= WeightedSum(s, n, k - 1) <= hi * TotalWeight(n, k - 1)
    ensures lo * TotalWeight(n, k) <= WeightedSum(s, n, k) <= hi * TotalWeight(n, k)
  {
    WeightNonNegative(k - 1, n);
    AccumulateBounds(lo, hi, WeightedSum(s, n, k - 1), TotalWeight(n, k - 1), s[k - 1], Weight(k - 1, n),
                     TotalWeight(n, k));
  }

  lemma {:induction false} WeightedSumBounds(s: seq<real>, n: nat, k: nat, lo: real, hi: real)
    requires n > 0 && k <= |s|
    requires forall i :: 0 <= i < k ==> lo <= s[i] <= hi
    ensures lo * TotalWeight(n, k) <= WeightedSum(s, n, k) <= hi * TotalWeight(n, k)
  {
    if k == 0 {
      assert lo * TotalWeight(n, k) == 0.0 == hi * TotalWeight(n, k);
    } else {
      WeightedSumBounds(s, n, k - 1, lo, hi);
      WeightedSumStep(s, n, k, lo, hi);
    }
  }

  lemma DivideStrict(a: real, b: real, n: real)
    requires n > 0.0 && a < b
    ensures a / n < b / n
  {
    assert (b / n - a / n) * n == b - a;
  }

  lemma DivideMonotone(a: real, b: real, n: real)
    requires n > 0.0 && a <= b
    ensures a / n <= b / n
  {
    if a < b {
      DivideStrict(a, b, n);
    }
  }

  lemma MulStrict(k: real, x: real, y: real)
    requires k > 0.0 && x < y
    ensures k * x < k * y
  {
    assert k * y - k * x == k * (y - x);
  }

  lemma QuotientBounds(num: real, den: real, lo: real, hi: real)
    requires den > 0.0
    requires lo * den <= num <= hi * den
    ensures lo <= num / den <= hi
  {
    assert (num / den) * den == num;
  }

  /** One coordinate of the weighted average stays inside any bounds of the history. */
  lemma WeightedCoordinateBounds(s: seq<real>, lo: real, hi: real)
    requires |s| > 1
    requires forall i :: 0 <= i < |s| ==> lo <= s[i] <= hi
    ensures var n := |s|; TotalWeight(n, n) > 0.0 && lo <= WeightedSum(s, n, n) / TotalWeight(n, n) <= hi
  {
    var n := |s|;
    WeightedSumBounds(s, n, n, lo, hi);
    TotalWeightPositive(n);
    QuotientBounds(WeightedSum(s, n, n), TotalWeight(n, n), lo, hi);
  }

  /**
   * The smoothed center is a convex combination of the history: on each axis it
   * lies within any bounds that hold for every entry (in particular, between
   * the smallest and the largest entry).
   */
  lemma WeightedAverageWithin(h: seq<Point>, lo: Point, hi: Point)
    requires |h| > 0
    requires forall i :: 0 <= i < |h| ==> lo.x <= h[i].x <= hi.x && lo.y <= h[i].y <= hi.y
    ensures var r := WeightedAverage(h); lo.x <= r.x <= hi.x && lo.y <= r.y <= hi.y
  {
    if |h| > 1 {
      WeightedCoordinateBounds(Xs(h), lo.x, hi.x);
      WeightedCoordinateBounds(Ys(h), lo.y, hi.y);
    }
  }

  /** A history of identical points smooths to that point. */
  lemma WeightedAverageOfConstant(h: seq<Point>, p: Point)
    requires |h| > 0
    requires forall i :: 0 <= i < |h| ==> h[i] == p
    ensures WeightedAverage(h) == p
  {
    WeightedAverageWithin(h, p, p);
  }

  // ---------------------------------------------------------------------
  // Exponential step (the final interpolation of the frame loop)
  // ---------------------------------------------------------------------

  /** new = old + SMOOTH_ALPHA * (target - old), on each axis. */
  function ExpStep(prev: Point, target: Point): (r: Point)
    ensures Between(prev.x, target.x, r.x) && Between(prev.y, target.y, r.y)
    ensures target == prev ==> r == prev
  {
    Point(prev.x + SMOOTH_ALPHA * (target.x - prev.x), prev.y + SMOOTH_ALPHA * (target.y - prev.y))
  }

  /** Each step closes exactly 8% of the remaining gap to the target, on both axes. */
  lemma ExpStepContracts(prev: Point, target: Point)
    ensures var r := ExpStep(prev, target);
            && Abs(target.x - r.x) == (1.0 - SMOOTH_ALPHA) * Abs(target.x - prev.x)
            && Abs(target.y - r.y) == (1.0 - SMOOTH_ALPHA) * Abs(target.y - prev.y)
  {
  }

  // ---------------------------------------------------------------------
  // Crop geometry
  // ---------------------------------------------------------------------

  /** Python's `int()` on a float: truncation toward zero. */
  function Trunc(r: real): (t: int)
    ensures Abs(r - t as real) < 1.0
    ensures 0.0 <= r ==> 0 <= t && t as real <= r
    ensures r <= 0.0 ==> t <= 0 && r <= t as real
  {
    if r >= 0.0 then r.Floor else -((-r).Floor)
  }

  /** `int(height * 9 / 16)`: the widest 9:16 window of the full frame height. */
  function CropWidth(height: nat): (w: nat)
    ensures w <= height
    ensures 16 * w <= 9 * height < 16 * w + 16
  {
    (height * 9) / 16
  }

  /**
   * The crop rectangle for a stabilized center: full frame height, 9:16
   * width, left edge at the truncated `cx - crop_w / 2` clamped into the frame.
   */
  function CropRect(width: nat, height: nat, center: Point): (r: Rect)
    ensures r.w == CropWidth(height) && r.h == height
    ensures r.x1 >= 0 && r.y1 == 0
    ensures r.w <= width ==> r.x1 + r.w <= width
    ensures var t := Trunc(center.x - r.w as real / 2.0);
            && (0 <= t <= width - r.w ==> r.x1 == t)
            && (r.w <= width && t < 0 ==> r.x1 == 0)
            && (r.w <= width && t > width - r.w ==> r.x1 == width - r.w)
            && (r.w > width ==> r.x1 == 0)
  {
    var cropW := CropWidth(height);
    var cropH := height;
    var x1 := Max(0, Min(Trunc(center.x - cropW as real / 2.0), width - cropW));
    var y1 := Max(0, Min(Trunc(center.y - cropH as real / 2.0), height - cropH));
    Rect(x1, y1, cropW, cropH)
  }
}
