/**
 * Active-speaker selection of reframe_mediapipe_falante_v7.py: a bounded
 * history of per-face mouth apertures, zero-padded to a common width, whose
 * per-slot means pick the face that talks most over the recent window.
 */
module Speaker {
  import opened Stabilizer
  import opened Extrema

  /** One landmark detection: a face center and its mouth aperture. */
  datatype Candidate = Candidate(center: Point, aperture: real)

  /** `deque(maxlen=15)` of aperture rows. */
  const ACTIVITY_WINDOW: nat := 15

  /** Length of the longest row (0 for no rows). */
  function MaxRowLen(rows: seq<seq<real>>): (m: nat)
    ensures forall i :: 0 <= i < |rows| ==> |rows[i]| <= m
    ensures |rows| > 0 ==> exists i :: 0 <= i < |rows| && |rows[i]| == m
  {
    if rows == [] then 0
    else
      var m := MaxRowLen(rows[..|rows| - 1]);
      if |rows[|rows| - 1]| > m then |rows[|rows| - 1]| else m
  }

  /**
   * `max_faces`: the largest row length among the current candidates and the
   * history, or the candidate count when the history is empty.
   */
  function MaxFaces(activity: seq<seq<real>>, count: nat): (m: nat)
    ensures m >= count
    ensures forall i :: 0 <= i < |activity| ==> |activity[i]| <= m
    ensures m == count || exists i :: 0 <= i < |activity| && |activity[i]| == m
  {
    if |activity| == 0 then count
    else
      var longest := MaxRowLen(activity);
      if longest > count then longest else count
  }

  function Zeros(k: nat): (z: seq<real>)
    ensures |z| == k && forall i :: 0 <= i < k ==> z[i] == 0.0
  {
    seq(k, i => 0.0)
  }

  /** `row + [0.0] * (m - len(row))`. */
  function PadRow(row: seq<real>, m: nat): (r: seq<real>)
    requires |row| <= m
    ensures |r| == m
    ensures forall j :: 0 <= j < |row| ==> r[j] == row[j]
    ensures forall j :: |row| <= j < m ==> r[j] == 0.0
  {
    row + Zeros(m - |row|)
  }

  function Apertures(cands: seq<Candidate>): (a: seq<real>)
    ensures |a| == |cands| && forall i :: 0 <= i < |cands| ==> a[i] == cands[i].aperture
  {
    seq(|cands|, i requires 0 <= i < |cands| => cands[i].aperture)
  }

  /** Every row can be padded to width m. */
  predicate RowsFit(rows: seq<seq<real>>, m: nat) {
    forall i :: 0 <= i < |rows| ==> |rows[i]| <= m
  }

  /** Sum of slot j over all rows, each padded to width m. */
  function ColumnSum(rows: seq<seq<real>>, m: nat, j: nat): real
    requires RowsFit(rows, m) && j < m
  {
    if rows == [] then 0.0
    else ColumnSum(rows[..|rows| - 1], m, j) + PadRow(rows[|rows| - 1], m)[j]
  }

  /** `np.mean(hist_array, axis=0)`: the mean aperture of each slot over the window. */
  function SlotMeans(rows: seq<seq<real>>, m: nat): (means: seq<real>)
    requires |rows| > 0 && RowsFit(rows, m)
    ensures |means| == m
    ensures forall j :: 0 <= j < m ==> means[j] == ColumnSum(rows, m, j) / |rows| as real
  {
    seq(m, j requires 0 <= j < m => ColumnSum(rows, m, j) / |rows| as real)
  }

  /** Horizontal distance of each candidate's center from `width // 2`. */
  function MidlineDistances(cands: seq<Candidate>, width: nat): (d: seq<real>)
    ensures |d| == |cands|
    ensures forall i :: 0 <= i < |cands| ==> d[i] == Abs(cands[i].center.x - (width / 2) as real)
  {
    seq(|cands|, i requires 0 <= i < |cands| => Abs(cands[i].center.x - (width / 2) as real))
  }

  /** The first candidate horizontally closest to the frame's midline. */
  function NearestToMidline(cands: seq<Candidate>, width: nat): (k: nat)
    requires |cands| > 0
    ensures k < |cands|
    ensures IsFirstArgMin(MidlineDistances(cands, width), k)
  {
    FirstArgMin(MidlineDistances(cands, width))
  }

  /** This frame's padded row pushed onto the history: every row fits `max_faces`. */
  lemma RowsFitAfterPush(activity: seq<seq<real>>, cands: seq<Candidate>)
    ensures var m := MaxFaces(activity, |cands|);
            RowsFit(PushBounded(activity, PadRow(Apertures(cands), m), ACTIVITY_WINDOW), m)
  {
    var m := MaxFaces(activity, |cands|);
    var hist := PushBounded(activity, PadRow(Apertures(cands), m), ACTIVITY_WINDOW);
    forall i | 0 <= i < |hist| ensures |hist[i]| <= m {
      if i < |hist| - 1 {
        assert hist[i] == hist[..|hist| - 1][i];
      }
    }
  }

  /** The updated aperture history and the chosen candidate. */
  datatype Selection = Selection(activity: seq<seq<real>>, index: nat)

  /**
   * Appends this frame's apertures, padded to `max_faces`, to the bounded
   * history; takes the first slot with the greatest mean over the window, and
   * when that slot has no candidate in this frame, the candidate nearest the
   * midline instead.
   */
  function SelectSpeaker(activity: seq<seq<real>>, cands: seq<Candidate>, width: nat): (sel: Selection)
    requires |cands| > 0
    ensures |sel.activity| == if |activity| < ACTIVITY_WINDOW then |activity| + 1 else ACTIVITY_WINDOW
    ensures sel.index < |cands|
  {
    var m := MaxFaces(activity, |cands|);
    var hist := PushBounded(activity, PadRow(Apertures(cands), m), ACTIVITY_WINDOW);
    RowsFitAfterPush(activity, cands);
    var k := FirstArgMax(SlotMeans(hist, m));
    Selection(hist, if k < |cands| then k else NearestToMidline(cands, width))
  }

  /**
   * The new history ends with this frame's apertures padded to `max_faces`,
   * keeps the previous rows that still fit the window, and the chosen
   * candidate is the first slot with the greatest mean when that slot is
   * present, otherwise the first candidate nearest the midline.
   */
  lemma SpeakerChoice(activity: seq<seq<real>>, cands: seq<Candidate>, width: nat)
    requires |cands| > 0
    ensures var sel := SelectSpeaker(activity, cands, width);
            var m := MaxFaces(activity, |cands|);
            && RowsFit(sel.activity, m)
            && sel.activity[|sel.activity| - 1] == PadRow(Apertures(cands), m)
            && sel.activity[..|sel.activity| - 1] == activity[|activity| + 1 - |sel.activity|..]
            && var k := FirstArgMax(SlotMeans(sel.activity, m));
               && (k < |cands| ==> sel.index == k)
               && (k >= |cands| ==> IsFirstArgMin(MidlineDistances(cands, width), sel.index))
  {
    RowsFitAfterPush(activity, cands);
  }

  /**
   * Sustained speaker wins: a present slot whose summed aperture over the
   * updated window is strictly the largest is chosen, whatever the apertures
   * of the current frame alone are.
   */
  lemma SustainedSpeakerWins(activity: seq<seq<real>>, cands: seq<Candidate>, width: nat, a: nat)
    requires |cands| > 0 && a < |cands|
    requires var sel := SelectSpeaker(activity, cands, width);
             var m := MaxFaces(activity, |cands|);
             RowsFit(sel.activity, m) &&
             forall j :: 0 <= j < m && j != a ==> ColumnSum(sel.activity, m, j) < ColumnSum(sel.activity, m, a)
    ensures SelectSpeaker(activity, cands, width).index == a
  {
    var sel := SelectSpeaker(activity, cands, width);
    var m := MaxFaces(activity, |cands|);
    var means := SlotMeans(sel.activity, m);
    var k := FirstArgMax(means);
    var n := |sel.activity| as real;
    SpeakerChoice(activity, cands, width);
    if k != a {
      DivideStrict(ColumnSum(sel.activity, m, k), ColumnSum(sel.activity, m, a), n);
      assert false;
    }
  }
}
