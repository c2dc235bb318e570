/** The per-frame pipeline of the offset tracker (`process_frame` of
    model/eye_tracking_model.py): landmarks, or their absence, become an
    event; the event drives the attention state machine; a fire is handed
    to the serial sink, whose success has no influence on the state. */
module EyeTracker {
  import opened Common
  import opened Geometry
  import OffsetClassifier
  import opened Attention

  /** The classifier's verdict on a face, from its four centres. */
  function FaceLooks(landmarks: seq<Landmark>, w: nat, h: nat): bool
    requires |landmarks| >= MeshSize
  {
    MeshIndicesValid(landmarks);
    OffsetClassifier.IsLookingAtScreen(
      Center(landmarks, LeftEye, w, h), Center(landmarks, RightEye, w, h),
      Center(landmarks, LeftIris, w, h), Center(landmarks, RightIris, w, h),
      OffsetClassifier.FrameShape(h, w))
  }

  /** What the state machine is told about a frame. */
  function Classify(f: Frame): (ev: Event)
    requires WellFormed(f)
    ensures ev == NoFace <==> f.face.None?
    ensures ev == Looking <==> f.face.Some? && FaceLooks(f.face.value, f.w, f.h)
  {
    match f.face
    case None => NoFace
    case Some(landmarks) => if FaceLooks(landmarks, f.w, f.h) then Looking else NotLooking
  }

  /** The serial link as it stands: never opened (disabled at construction
      or failed to open), or open, with the outcome of this write. */
  datatype Sink = Disabled | Connected(writeSucceeds: bool)

  /** The byte the tracker writes: ASCII '1'. */
  const TriggerByte: int := 0x31

  /** `send_arduino_signal`: the bytes that reach the device. A disabled
      link is a no-op and a failing write is swallowed. */
  function SendSignal(sink: Sink): (written: seq<int>)
    ensures written == [TriggerByte] <==> sink == Connected(true)
    ensures written == [] <==> sink != Connected(true)
  {
    if sink.Connected? && sink.writeSucceeds then [TriggerByte] else []
  }

  /** The outcome of one frame: the next session state, the boolean
      returned to the frame loop, and the bytes written to the serial link. */
  datatype FrameResult = FrameResult(state: State, looking: bool, written: seq<int>)

  /** `process_frame` without drawing. */
  function ProcessFrame(s: State, f: Frame, now: real, sink: Sink, threshold: real): (r: FrameResult)
    requires WellFormed(f)
    ensures r.state == Step(s, Classify(f), now, threshold).state
    ensures r.looking <==> f.face.Some? && FaceLooks(f.face.value, f.w, f.h)
    ensures |r.written| > 0 ==> Step(s, Classify(f), now, threshold).fired
    ensures Step(s, Classify(f), now, threshold).fired ==> r.written == SendSignal(sink)
  {
    var step := Step(s, Classify(f), now, threshold);
    FrameResult(step.state, step.looking, if step.fired then SendSignal(sink) else [])
  }

  /** The session state evolves identically whether or not the link is
      open and whether or not the write succeeds: `signal_sent` is set even
      when nothing reached the device. */
  lemma StateIndependentOfSink(s: State, f: Frame, now: real, a: Sink, b: Sink, threshold: real)
    requires WellFormed(f)
    ensures ProcessFrame(s, f, now, a, threshold).state == ProcessFrame(s, f, now, b, threshold).state
    ensures ProcessFrame(s, f, now, a, threshold).looking == ProcessFrame(s, f, now, b, threshold).looking
  {
  }

  /** A fire marks the episode as signalled even on a disabled link that
      wrote nothing. */
  lemma FireMarksSentWithoutLink(s: State, f: Frame, now: real, threshold: real)
    requires WellFormed(f) && Step(s, Classify(f), now, threshold).fired
    ensures ProcessFrame(s, f, now, Disabled, threshold).state.signalSent
    ensures ProcessFrame(s, f, now, Disabled, threshold).written == []
  {
  }

  /** A frame without a face returns false and leaves the stored
      classification alone, while its timer effect is that of an away frame. */
  lemma NoFaceFrame(s: State, w: nat, h: nat, now: real, sink: Sink, threshold: real)
    ensures var r := ProcessFrame(s, Frame(w, h, None), now, sink, threshold);
      && !r.looking
      && r.state.lookingAtScreen == s.lookingAtScreen
      && r.state.lookAwayStart.Some?
      && r.state.signalSent
         == (SentBefore(s) || now - r.state.lookAwayStart.value >= threshold)
  {
  }

  /** A frame whose face looks at the screen clears the timer and writes
      nothing, whatever the session had recorded. */
  lemma LookingFrameResets(s: State, f: Frame, now: real, sink: Sink, threshold: real)
    requires WellFormed(f)
    ensures f.face.Some? && FaceLooks(f.face.value, f.w, f.h) ==>
      ProcessFrame(s, f, now, sink, threshold) == FrameResult(State(true, None, false), true, [])
  {
  }

  /** One frame as it arrives: the frame, the clock reading, and how the
      link would treat a write at that moment. */
  datatype Tick = Tick(frame: Frame, time: real, sink: Sink)

  predicate AllWellFormed(ts: seq<Tick>)
  {
    forall k :: 0 <= k < |ts| ==> WellFormed(ts[k].frame)
  }

  /** The state machine's view of a run of ticks. */
  function Inputs(ts: seq<Tick>): (ins: seq<Input>)
    requires AllWellFormed(ts)
    ensures |ins| == |ts|
    ensures forall k :: 0 <= k < |ts| ==> ins[k] == Input(Classify(ts[k].frame), ts[k].time)
  {
    seq(|ts|, k requires 0 <= k < |ts| => Input(Classify(ts[k].frame), ts[k].time))
  }

  /** The session after a run of ticks, with every byte written on the way. */
  function RunTicks(s: State, ts: seq<Tick>, threshold: real): (State, seq<int>)
    requires AllWellFormed(ts)
  {
    if |ts| == 0 then (s, [])
    else
      var prev := RunTicks(s, ts[..|ts| - 1], threshold);
      var last := ts[|ts| - 1];
      var r := ProcessFrame(prev.0, last.frame, last.time, last.sink, threshold);
      (r.state, prev.1 + r.written)
  }

  /** The frame pipeline is the state machine run on the classified frames,
      and it writes no more bytes than the machine fires. */
  lemma {:induction false} TicksFollowStateMachine(s: State, ts: seq<Tick>, threshold: real)
    requires AllWellFormed(ts)
    ensures RunTicks(s, ts, threshold).0 == Run(s, Inputs(ts), threshold)
    ensures |RunTicks(s, ts, threshold).1| <= FireCount(s, Inputs(ts), threshold)
  {
    if |ts| > 0 {
      var n := |ts|;
      assert AllWellFormed(ts[..n - 1]);
      TicksFollowStateMachine(s, ts[..n - 1], threshold);
      assert Inputs(ts)[..n - 1] == Inputs(ts[..n - 1]);
    }
  }

  /** On the wire: while no face looks at the screen the device receives at
      most one trigger byte, and none at all if the episode had already
      been signalled. */
  lemma AtMostOneTriggerBytePerEpisode(s: State, ts: seq<Tick>, threshold: real)
    requires AllWellFormed(ts) && Valid(s) && |ts| > 0
    requires forall k :: 0 <= k < |ts| ==> Classify(ts[k].frame) != Looking
    ensures |RunTicks(s, ts, threshold).1| <= 1
    ensures s.signalSent ==> RunTicks(s, ts, threshold).1 == []
  {
    TicksFollowStateMachine(s, ts, threshold);
    assert AwayOnly(Inputs(ts));
    EpisodeFiresAtMostOnce(s, Inputs(ts), threshold);
  }
}
