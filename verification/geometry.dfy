/** The geometry extractor shared by both tracker variants: landmarks come
    from the face mesh normalised to the frame, are scaled to pixels, and a
    centre is the truncated arithmetic mean of a fixed subset of them. */
module Geometry {
  import opened Common

  /** A face-mesh landmark, coordinates normalised to the frame. */
  datatype Landmark = Landmark(x: real, y: real)

  /** An integer pixel position, as OpenCV consumes it. */
  datatype Point = Point(x: int, y: int)

  /** The landmark index sets of the refined face mesh. */
  const LeftEye: seq<nat> := [362, 385, 387, 263, 373, 380]
  const RightEye: seq<nat> := [33, 160, 158, 133, 153, 144]
  const LeftIris: seq<nat> := [474, 475, 476, 477]
  const RightIris: seq<nat> := [469, 470, 471, 472]

  /** The refined mesh reports this many landmarks; every index above is
      below it. */
  const MeshSize: nat := 478

  /** `indices` can be looked up in `landmarks` and is not empty (the mean
      of an empty list is NaN, which `int` rejects). */
  predicate ValidIndices(landmarks: seq<Landmark>, indices: seq<nat>)
  {
    |indices| > 0 && forall k :: 0 <= k < |indices| ==> indices[k] < |landmarks|
  }

  /** A camera frame as both trackers see it: its size and the landmarks
      of the first detected face, if any. */
  datatype Frame = Frame(w: nat, h: nat, face: Option<seq<Landmark>>)

  /** A face result from the refined mesh carries all of its landmarks. */
  predicate WellFormed(f: Frame)
  {
    f.face.Some? ==> |f.face.value| >= MeshSize
  }

  lemma MeshIndicesValid(landmarks: seq<Landmark>)
    requires |landmarks| >= MeshSize
    ensures ValidIndices(landmarks, LeftEye) && ValidIndices(landmarks, RightEye)
    ensures ValidIndices(landmarks, LeftIris) && ValidIndices(landmarks, RightIris)
  {
  }

  function Sum(xs: seq<real>): real
  {
    if |xs| == 0 then 0.0 else Sum(xs[..|xs| - 1]) + xs[|xs| - 1]
  }

  function Mean(xs: seq<real>): (m: real)
    requires |xs| > 0
    ensures m * |xs| as real == Sum(xs)
  {
    Sum(xs) / |xs| as real
  }

  /** The pixel abscissae `landmarks[idx].x * w` of the selected landmarks. */
  function ScaledX(landmarks: seq<Landmark>, indices: seq<nat>, w: int): (xs: seq<real>)
    requires ValidIndices(landmarks, indices)
    ensures |xs| == |indices|
    ensures forall k :: 0 <= k < |indices| ==> xs[k] == landmarks[indices[k]].x * w as real
  {
    seq(|indices|, k requires 0 <= k < |indices| => landmarks[indices[k]].x * w as real)
  }

  /** The pixel ordinates `landmarks[idx].y * h` of the selected landmarks. */
  function ScaledY(landmarks: seq<Landmark>, indices: seq<nat>, h: int): (ys: seq<real>)
    requires ValidIndices(landmarks, indices)
    ensures |ys| == |indices|
    ensures forall k :: 0 <= k < |indices| ==> ys[k] == landmarks[indices[k]].y * h as real
  {
    seq(|indices|, k requires 0 <= k < |indices| => landmarks[indices[k]].y * h as real)
  }

  /** The centre of the selected landmarks, `get_eye_center` and
      `get_iris_position` alike (their bodies are identical): each
      coordinate is the mean of the scaled coordinates truncated toward
      zero, that is, the integer less than one away from the mean on the
      side of zero. */
  function Center(landmarks: seq<Landmark>, indices: seq<nat>, w: int, h: int): (p: Point)
    requires ValidIndices(landmarks, indices)
    ensures var mx := Mean(ScaledX(landmarks, indices, w));
      && (mx >= 0.0 ==> 0 <= p.x && p.x as real <= mx < p.x as real + 1.0)
      && (mx < 0.0 ==> p.x <= 0 && p.x as real - 1.0 < mx <= p.x as real)
    ensures var my := Mean(ScaledY(landmarks, indices, h));
      && (my >= 0.0 ==> 0 <= p.y && p.y as real <= my < p.y as real + 1.0)
      && (my < 0.0 ==> p.y <= 0 && p.y as real - 1.0 < my <= p.y as real)
  {
    Point(Trunc(Mean(ScaledX(landmarks, indices, w))), Trunc(Mean(ScaledY(landmarks, indices, h))))
  }

  /** The sum of values that all lie in [lo, hi] lies in [n * lo, n * hi]. */
  lemma {:induction false} SumBounds(xs: seq<real>, lo: real, hi: real)
    requires forall k :: 0 <= k < |xs| ==> lo <= xs[k] <= hi
    ensures lo * |xs| as real <= Sum(xs) <= hi * |xs| as real
  {
    if |xs| > 0 {
      SumBounds(xs[..|xs| - 1], lo, hi);
    }
  }

  /** The mean lies between any lower and upper bound of its values. */
  lemma MeanBounds(xs: seq<real>, lo: real, hi: real)
    requires |xs| > 0
    requires forall k :: 0 <= k < |xs| ==> lo <= xs[k] <= hi
    ensures lo <= Mean(xs) <= hi
  {
    SumBounds(xs, lo, hi);
    var n := |xs| as real;
    ScaleDown(Mean(xs) - lo, n);
    ScaleDown(hi - Mean(xs), n);
  }

  /** A product with a positive factor keeps the sign of the other one. */
  lemma ScaleDown(a: real, n: real)
    requires n > 0.0 && a * n >= 0.0
    ensures a >= 0.0
  {
  }

  /** When every landmark is normalised to [0, 1], the centre lies inside
      the w-by-h frame: the truncated mean of pixel coordinates in [0, w]
      is an integer in [0, w]. */
  lemma CenterInsideFrame(landmarks: seq<Landmark>, indices: seq<nat>, w: nat, h: nat)
    requires ValidIndices(landmarks, indices)
    requires forall k :: 0 <= k < |landmarks| ==>
      0.0 <= landmarks[k].x <= 1.0 && 0.0 <= landmarks[k].y <= 1.0
    ensures 0 <= Center(landmarks, indices, w, h).x <= w
    ensures 0 <= Center(landmarks, indices, w, h).y <= h
  {
    ScaledXInside(landmarks, indices, w);
    ScaledYInside(landmarks, indices, h);
  }

  lemma ScaledXInside(landmarks: seq<Landmark>, indices: seq<nat>, w: nat)
    requires ValidIndices(landmarks, indices)
    requires forall k :: 0 <= k < |landmarks| ==> 0.0 <= landmarks[k].x <= 1.0
    ensures 0 <= Trunc(Mean(ScaledX(landmarks, indices, w))) <= w
  {
    var xs := ScaledX(landmarks, indices, w);
    forall k | 0 <= k < |xs|
      ensures 0.0 <= xs[k] <= w as real
    {
      var l := landmarks[indices[k]];
      ScaledEntryBound(xs[k], l.x, w);
    }
    TruncatedMeanInside(xs, w);
  }

  lemma ScaledYInside(landmarks: seq<Landmark>, indices: seq<nat>, h: nat)
    requires ValidIndices(landmarks, indices)
    requires forall k :: 0 <= k < |landmarks| ==> 0.0 <= landmarks[k].y <= 1.0
    ensures 0 <= Trunc(Mean(ScaledY(landmarks, indices, h))) <= h
  {
    var ys := ScaledY(landmarks, indices, h);
    forall k | 0 <= k < |ys|
      ensures 0.0 <= ys[k] <= h as real
    {
      var l := landmarks[indices[k]];
      ScaledEntryBound(ys[k], l.y, h);
    }
    TruncatedMeanInside(ys, h);
  }

  lemma TruncatedMeanInside(vs: seq<real>, d: nat)
    requires |vs| > 0
    requires forall k :: 0 <= k < |vs| ==> 0.0 <= vs[k] <= d as real
    ensures 0 <= Trunc(Mean(vs)) <= d
  {
    MeanBounds(vs, 0.0, d as real);
    TruncMonotone(Mean(vs), d as real);
    TruncOfInt(d);
  }

  lemma ScaleBound(u: real, d: nat)
    requires 0.0 <= u <= 1.0
    ensures 0.0 <= u * d as real <= d as real
  {
  }

  /** A scaled coordinate of a landmark inside the frame lies in [0, d]. */
  lemma ScaledEntryBound(v: real, u: real, d: nat)
    requires v == u * d as real && 0.0 <= u <= 1.0
    ensures 0.0 <= v <= d as real
  {
    ScaleBound(u, d);
  }

  /** When all selected landmarks coincide, the centre is that landmark's
      scaled position, truncated: averaging introduces no drift. */
  lemma CenterOfCoincidentLandmarks(landmarks: seq<Landmark>, indices: seq<nat>, w: int, h: int, l: Landmark)
    requires ValidIndices(landmarks, indices)
    requires forall k :: 0 <= k < |indices| ==> landmarks[indices[k]] == l
    ensures Center(landmarks, indices, w, h) == Point(Trunc(l.x * w as real), Trunc(l.y * h as real))
  {
    var xs := ScaledX(landmarks, indices, w);
    var ys := ScaledY(landmarks, indices, h);
    MeanBounds(xs, l.x * w as real, l.x * w as real);
    MeanBounds(ys, l.y * h as real, l.y * h as real);
  }

  /** A centre depends only on the landmarks it selects. */
  lemma CenterDependsOnlyOnSelected(a: seq<Landmark>, b: seq<Landmark>, indices: seq<nat>, w: int, h: int)
    requires ValidIndices(a, indices) && ValidIndices(b, indices)
    requires forall k :: 0 <= k < |indices| ==> a[indices[k]] == b[indices[k]]
    ensures Center(a, indices, w, h) == Center(b, indices, w, h)
  {
    var xa, xb := ScaledX(a, indices, w), ScaledX(b, indices, w);
    var ya, yb := ScaledY(a, indices, h), ScaledY(b, indices, h);
    forall k | 0 <= k < |indices|
      ensures xa[k] == xb[k] && ya[k] == yb[k]
    {
      assert a[indices[k]] == b[indices[k]];
    }
    assert xa == xb;
    assert ya == yb;
  }
}
