/**
 * The Haar-cascade fallback of reframe_mediapipe_falante_v7.py: boxes from
 * the frontal and the profile classifier become `(cx, cy, w, h)` faces, and
 * the face with the best size-and-centrality score is chosen.
 */
module Cascade {
  import opened Stabilizer
  import opened Extrema

  /** A box `(x, y, w, h)` as returned by `detectMultiScale`. */
  datatype Box = Box(x: int, y: int, w: int, h: int)

  /** A detected face: its box center and the box size. */
  datatype Face = Face(cx: int, cy: int, w: int, h: int)

  /** `(x + w // 2, y + h // 2, w, h)`: the center is the box midpoint rounded down. */
  function FaceOf(b: Box): (f: Face)
    ensures f.w == b.w && f.h == b.h
    ensures 2 * (f.cx - b.x) == b.w || 2 * (f.cx - b.x) == b.w - 1
    ensures 2 * (f.cy - b.y) == b.h || 2 * (f.cy - b.y) == b.h - 1
  {
    Face(b.x + b.w / 2, b.y + b.h / 2, b.w, b.h)
  }

  /** The face of every box, in the order given. */
  function FacesOf(boxes: seq<Box>): (faces: seq<Face>)
    ensures |faces| == |boxes|
    ensures forall i :: 0 <= i < |boxes| ==> faces[i] == FaceOf(boxes[i])
  {
    seq(|boxes|, i requires 0 <= i < |boxes| => FaceOf(boxes[i]))
  }

  /**
   * `_detect_faces_haar`: the frontal faces, then the profile faces, each box
   * reduced to its center.
   */
  method DetectFacesHaar(frontal: seq<Box>, profile: seq<Box>) returns (faces: seq<Face>)
    ensures |faces| == |frontal| + |profile|
    ensures forall i :: 0 <= i < |frontal| ==> faces[i] == FaceOf(frontal[i])
    ensures forall i :: 0 <= i < |profile| ==> faces[|frontal| + i] == FaceOf(profile[i])
  {
    faces := [];
    var i := 0;
    while i < |frontal|
      invariant 0 <= i <= |frontal|
      invariant faces == FacesOf(frontal[..i])
    {
      faces := faces + [FaceOf(frontal[i])];
      i := i + 1;
    }
    var j := 0;
    while j < |profile|
      invariant 0 <= j <= |profile|
      invariant faces == FacesOf(frontal) + FacesOf(profile[..j])
    {
      faces := faces + [FaceOf(profile[j])];
      j := j + 1;
    }
  }

  /** A box with non-negative size contains its own center. */
  lemma FaceCenterInsideBox(b: Box)
    requires b.w >= 0 && b.h >= 0
    ensures var f := FaceOf(b);
            b.x <= f.cx <= b.x + b.w && b.y <= f.cy <= b.y + b.h
  {
  }

  /** `1 / (1 + |cx - width // 2| / width)`. */
  function CenterScore(f: Face, width: nat): real
    requires width > 0
  {
    1.0 / (1.0 + Abs((f.cx - width / 2) as real) / width as real)
  }

  /** `w * h * (1 + center_score)`. */
  function ScoreFace(f: Face, width: nat): real
    requires width > 0
  {
    (f.w * f.h) as real * (1.0 + CenterScore(f, width))
  }

  lemma ReciprocalBounds(d: real)
    requires d >= 0.0
    ensures 0.0 < 1.0 / (1.0 + d) <= 1.0
    ensures 1.0 / (1.0 + d) == 1.0 <==> d == 0.0
  {
    var q := 1.0 / (1.0 + d);
    assert q * (1.0 + d) == 1.0;
  }

  lemma ReciprocalDecreasing(d1: real, d2: real)
    requires 0.0 <= d1 < d2
    ensures 1.0 / (1.0 + d1) > 1.0 / (1.0 + d2)
  {
    var q1, q2 := 1.0 / (1.0 + d1), 1.0 / (1.0 + d2);
    assert q1 * (1.0 + d1) == 1.0 && q2 * (1.0 + d2) == 1.0;
    ReciprocalBounds(d2);
    assert q2 * (1.0 + d1) < q2 * (1.0 + d2);
  }

  /** The centrality factor lies in (0, 1] and reaches 1 exactly on the midline. */
  lemma CenterScoreRange(f: Face, width: nat)
    requires width > 0
    ensures 0.0 < CenterScore(f, width) <= 1.0
    ensures CenterScore(f, width) == 1.0 <==> f.cx == width / 2
  {
    var d := Abs((f.cx - width / 2) as real) / width as real;
    assert d >= 0.0;
    ReciprocalBounds(d);
    if f.cx != width / 2 {
      assert Abs((f.cx - width / 2) as real) > 0.0;
      assert d > 0.0;
    }
  }

  /** A face's score lies between its area and twice its area. */
  lemma ScoreBounds(f: Face, width: nat)
    requires width > 0 && f.w * f.h >= 0
    ensures (f.w * f.h) as real <= ScoreFace(f, width) <= 2.0 * (f.w * f.h) as real
    ensures f.w * f.h > 0 ==> (f.w * f.h) as real < ScoreFace(f, width)
  {
    CenterScoreRange(f, width);
    var a, c := (f.w * f.h) as real, CenterScore(f, width);
    assert a * (1.0 + c) == a + a * c;
    assert 0.0 <= a * c <= a;
    assert a > 0.0 ==> a * c > 0.0;
  }

  /** Size dominates: a face more than twice the area of another always scores higher. */
  lemma LargerAreaWins(f: Face, g: Face, width: nat)
    requires width > 0 && g.w * g.h >= 0 && f.w * f.h > 2 * (g.w * g.h)
    ensures ScoreFace(f, width) > ScoreFace(g, width)
  {
    ScoreBounds(f, width);
    ScoreBounds(g, width);
  }

  /** Among faces of equal positive area, the one nearer the midline scores higher. */
  lemma NearerMidlineWinsAtEqualArea(f: Face, g: Face, width: nat)
    requires width > 0 && f.w * f.h == g.w * g.h > 0
    requires Abs((f.cx - width / 2) as real) < Abs((g.cx - width / 2) as real)
    ensures ScoreFace(f, width) > ScoreFace(g, width)
  {
    var df := Abs((f.cx - width / 2) as real);
    var dg := Abs((g.cx - width / 2) as real);
    var w := width as real;
    DivideStrict(df, dg, w);
    assert df / w >= 0.0;
    ReciprocalDecreasing(df / w, dg / w);
    var a := (f.w * f.h) as real;
    MulStrict(a, 1.0 + CenterScore(g, width), 1.0 + CenterScore(f, width));
  }

  function Scores(faces: seq<Face>, width: nat): (s: seq<real>)
    requires width > 0
    ensures |s| == |faces| && forall i :: 0 <= i < |faces| ==> s[i] == ScoreFace(faces[i], width)
  {
    seq(|faces|, i requires 0 <= i < |faces| => ScoreFace(faces[i], width))
  }

  /** `max(haar_faces, key=score_face)`: the first face with the highest score. */
  function BestFace(faces: seq<Face>, width: nat): (k: nat)
    requires |faces| > 0 && width > 0
    ensures k < |faces|
    ensures IsFirstArgMax(Scores(faces, width), k)
  {
    FirstArgMax(Scores(faces, width))
  }
}
