/** Policy A of the gaze classifier: each eye is "centred" when the iris
    centre lies within a few pixels of the eye-socket centre, and the user
    looks at the screen when both eyes are centred. */
module OffsetClassifier {
  import opened Common
  import opened Geometry

  /** The pixel thresholds fixed in the classifier. */
  const HorizontalThreshold: int := 4
  const VerticalThreshold: int := 2

  /** The frame's shape as passed to the classifier (height, width). */
  datatype FrameShape = FrameShape(h: nat, w: nat)

  /** `calculate_gaze_ratio`: the offset of the iris from the eye centre.
      Its defining property: moving the eye centre by the offset lands on
      the iris, so the offset is the unique such vector. */
  function GazeOffset(eyeCenter: Point, iris: Point): (d: Point)
    ensures eyeCenter.x + d.x == iris.x && eyeCenter.y + d.y == iris.y
  {
    Point(iris.x - eyeCenter.x, iris.y - eyeCenter.y)
  }

  /** One eye is centred when the offset is strictly inside both bounds. */
  predicate Centered(d: Point)
  {
    Abs(d.x) < HorizontalThreshold && Abs(d.y) < VerticalThreshold
  }

  /** `is_looking_at_screen` of the offset variant. The shape argument is
      accepted but not consulted. Stated without `Abs`: both irises lie in
      the open box (-4, 4) x (-2, 2) around their eye centres, so the only
      accepted vertical offsets are -1, 0 and 1. */
  function IsLookingAtScreen(leftEye: Point, rightEye: Point, leftIris: Point, rightIris: Point,
                             shape: FrameShape): (r: bool)
    ensures r <==>
      && -4 < leftIris.x - leftEye.x < 4 && -2 < leftIris.y - leftEye.y < 2
      && -4 < rightIris.x - rightEye.x < 4 && -2 < rightIris.y - rightEye.y < 2
    ensures r ==> leftIris.y - leftEye.y in {-1, 0, 1} && rightIris.y - rightEye.y in {-1, 0, 1}
  {
    Centered(GazeOffset(leftEye, leftIris)) && Centered(GazeOffset(rightEye, rightIris))
  }

  /** The frame shape has no influence on the decision. */
  lemma ShapeIrrelevant(leftEye: Point, rightEye: Point, leftIris: Point, rightIris: Point,
                        s1: FrameShape, s2: FrameShape)
    ensures IsLookingAtScreen(leftEye, rightEye, leftIris, rightIris, s1)
        == IsLookingAtScreen(leftEye, rightEye, leftIris, rightIris, s2)
  {
  }

  /** Either eye failing either bound makes the decision false. */
  lemma OneEyeOffSuffices(leftEye: Point, rightEye: Point, leftIris: Point, rightIris: Point,
                          shape: FrameShape)
    requires !Centered(GazeOffset(leftEye, leftIris)) || !Centered(GazeOffset(rightEye, rightIris))
    ensures !IsLookingAtScreen(leftEye, rightEye, leftIris, rightIris, shape)
  {
  }

  /** The decision depends only on offsets: moving a whole eye (socket and
      iris together) by any vector does not change it, and neither does
      swapping the roles of the two eyes. */
  lemma TranslationAndSwapInvariant(leftEye: Point, rightEye: Point, leftIris: Point, rightIris: Point,
                                    shape: FrameShape, tx: int, ty: int)
    ensures IsLookingAtScreen(leftEye, rightEye, leftIris, rightIris, shape)
        == IsLookingAtScreen(Point(leftEye.x + tx, leftEye.y + ty), rightEye,
                             Point(leftIris.x + tx, leftIris.y + ty), rightIris, shape)
    ensures IsLookingAtScreen(leftEye, rightEye, leftIris, rightIris, shape)
        == IsLookingAtScreen(rightEye, leftEye, rightIris, leftIris, shape)
  {
  }
}
