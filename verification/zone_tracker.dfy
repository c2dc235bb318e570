/** Policy B of the gaze classifier (model/test_model.py): a centred
    rectangle is fixed from the first face frame's size and cached; the user
    looks at the screen when both iris centres lie inside it. The eye-socket
    centres are computed but never consulted. */
module ZoneTracker {
  import opened Common
  import opened Geometry

  /** The attention zone, inclusive on all four sides. */
  datatype Zone = Zone(x1: int, y1: int, x2: int, y2: int)

  /** The tracker's session fields: the cached zone and the last decision. */
  datatype Tracker = Tracker(zone: Option<Zone>, lookingAtScreen: bool)

  const Initial: Tracker := Tracker(None, false)

  /** The zone for a w-by-h frame with margins `mw` and `mh`: symmetric
      about the frame's centre lines, and well formed inside the frame
      whenever each margin is at most half its dimension. */
  function MakeZone(w: int, h: int, mw: int, mh: int): (z: Zone)
    ensures z.x1 == mw && z.y1 == mh
    ensures z.x1 + z.x2 == w && z.y1 + z.y2 == h
    ensures 0 <= mw && 2 * mw <= w ==> 0 <= z.x1 <= z.x2 <= w
    ensures 0 <= mh && 2 * mh <= h ==> 0 <= z.y1 <= z.y2 <= h
  {
    Zone(mw, mh, w - mw, h - mh)
  }

  /** `int(d * 0.3)` read over the reals: the largest integer not above
      three tenths of `d`. It never exceeds half the dimension. */
  function NominalMargin(d: nat): (m: nat)
    ensures 10 * m <= 3 * d < 10 * m + 10
    ensures 2 * m <= d
  {
    (3 * d) / 10
  }

  predicate InZone(z: Zone, p: Point)
  {
    z.x1 <= p.x <= z.x2 && z.y1 <= p.y <= z.y2
  }

  /** `is_looking_at_screen` of the zone variant: computes the zone only
      when none is cached, then tests both irises against the cached zone. */
  function IsLookingAtScreen(t: Tracker, leftIris: Point, rightIris: Point, w: nat, h: nat): (r: (Tracker, bool))
    ensures r.0.lookingAtScreen == t.lookingAtScreen
    ensures t.zone.Some? ==> r.0.zone == t.zone
    ensures t.zone.None? ==> r.0.zone == Some(MakeZone(w, h, NominalMargin(w), NominalMargin(h)))
    ensures r.0.zone.Some?
    ensures r.1 <==>
      && r.0.zone.value.x1 <= leftIris.x <= r.0.zone.value.x2
      && r.0.zone.value.y1 <= leftIris.y <= r.0.zone.value.y2
      && r.0.zone.value.x1 <= rightIris.x <= r.0.zone.value.x2
      && r.0.zone.value.y1 <= rightIris.y <= r.0.zone.value.y2
  {
    var zone := if t.zone.None? then MakeZone(w, h, NominalMargin(w), NominalMargin(h)) else t.zone.value;
    (t.(zone := Some(zone)), InZone(zone, leftIris) && InZone(zone, rightIris))
  }

  /** `process_frame` of the zone variant without drawing: the new tracker
      and the returned decision. */
  function ProcessFrame(t: Tracker, f: Frame): (r: (Tracker, bool))
    requires WellFormed(f)
    // Without a face: false, and nothing changes, not even the zone.
    ensures f.face.None? ==> r == (t, false)
    // With a face: the cached zone is used, or the nominal one is cached
    // now; the decision is whether both iris centres lie inside it, and it
    // is stored as well as returned.
    ensures f.face.Some? ==>
      r.0.zone == Some(if t.zone.Some? then t.zone.value
                       else MakeZone(f.w, f.h, NominalMargin(f.w), NominalMargin(f.h)))
    ensures f.face.Some? ==>
      var l := f.face.value;
      r.1 <==> InZone(r.0.zone.value, Center(l, LeftIris, f.w, f.h)) && InZone(r.0.zone.value, Center(l, RightIris, f.w, f.h))
    ensures f.face.Some? ==> r.0.lookingAtScreen == r.1
  {
    match f.face
    case None => (t, false)
    case Some(landmarks) =>
      MeshIndicesValid(landmarks);
      var res := IsLookingAtScreen(t, Center(landmarks, LeftIris, f.w, f.h),
                                   Center(landmarks, RightIris, f.w, f.h), f.w, f.h);
      (res.0.(lookingAtScreen := res.1), res.1)
  }

  /** The tracker after a whole sequence of frames. */
  function RunFrames(t: Tracker, frames: seq<Frame>): Tracker
    requires forall k :: 0 <= k < |frames| ==> WellFormed(frames[k])
    decreases |frames|
  {
    if |frames| == 0 then t
    else RunFrames(ProcessFrame(t, frames[0]).0, frames[1..])
  }

  /** Index of the first frame with a face, if any. */
  predicate FirstFace(frames: seq<Frame>, i: nat)
  {
    i < |frames| && frames[i].face.Some? && forall k :: 0 <= k < i ==> frames[k].face.None?
  }

  /** The zone is computed once: starting with no zone, after any frames it
      is the zone of the first frame that had a face, however the frame size
      changes later; if no frame had a face there still is no zone. A cached
      zone is never replaced. */
  lemma {:induction false} ZoneFixedByFirstFace(t: Tracker, frames: seq<Frame>)
    requires forall k :: 0 <= k < |frames| ==> WellFormed(frames[k])
    ensures t.zone.Some? ==> RunFrames(t, frames).zone == t.zone
    ensures t.zone.None? && (forall k :: 0 <= k < |frames| ==> frames[k].face.None?) ==>
      RunFrames(t, frames).zone.None?
    ensures forall i: nat :: t.zone.None? && FirstFace(frames, i) ==>
      RunFrames(t, frames).zone
        == Some(MakeZone(frames[i].w, frames[i].h, NominalMargin(frames[i].w), NominalMargin(frames[i].h)))
    decreases |frames|
  {
    if |frames| > 0 {
      var t' := ProcessFrame(t, frames[0]).0;
      ZoneFixedByFirstFace(t', frames[1..]);
      forall i: nat | t.zone.None? && FirstFace(frames, i)
        ensures RunFrames(t, frames).zone
          == Some(MakeZone(frames[i].w, frames[i].h, NominalMargin(frames[i].w), NominalMargin(frames[i].h)))
      {
        if i > 0 {
          assert FirstFace(frames[1..], i - 1);
        }
      }
    }
  }

  /** Only the iris landmarks matter: two faces that agree on the eight
      iris landmarks get the same decision and the same tracker, whatever
      their eye-socket landmarks. */
  lemma EyeSocketsIrrelevant(t: Tracker, w: nat, h: nat, a: seq<Landmark>, b: seq<Landmark>)
    requires |a| >= MeshSize && |b| >= MeshSize
    requires forall k :: 0 <= k < |LeftIris| ==> a[LeftIris[k]] == b[LeftIris[k]]
    requires forall k :: 0 <= k < |RightIris| ==> a[RightIris[k]] == b[RightIris[k]]
    ensures ProcessFrame(t, Frame(w, h, Some(a))) == ProcessFrame(t, Frame(w, h, Some(b)))
  {
    MeshIndicesValid(a);
    MeshIndicesValid(b);
    CenterDependsOnlyOnSelected(a, b, LeftIris, w, h);
    CenterDependsOnlyOnSelected(a, b, RightIris, w, h);
  }

  /** With the nominal margins every zone is a well-formed rectangle inside
      its frame, so a decision of true places both irises in the frame. */
  lemma NominalZoneInsideFrame(w: nat, h: nat)
    ensures var z := MakeZone(w, h, NominalMargin(w), NominalMargin(h));
      0 <= z.x1 <= z.x2 <= w && 0 <= z.y1 <= z.y2 <= h
  {
  }
}
