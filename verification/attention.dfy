/** The attention state machine of the offset tracker: a single-shot
    debounce timer. An away-episode (a maximal run of frames that are not
    "looking", faces or not) starts a timer at its first frame; the trigger
    fires once, on the first frame whose elapsed time reaches the threshold,
    and a "looking" frame resets everything. */
module Attention {
  import opened Common

  /** What the classifier made of one frame. */
  datatype Event = Looking | NotLooking | NoFace

  /** One frame as the state machine sees it: its event and its timestamp
      (seconds, as read from the clock when the frame was processed). */
  datatype Input = Input(event: Event, time: real)

  /** The tracker's mutable session fields: `looking_at_screen`,
      `look_away_start_time` and `signal_sent`. */
  datatype State = State(lookingAtScreen: bool, lookAwayStart: Option<real>, signalSent: bool)

  /** The result of processing one frame: the next state, the boolean the
      frame handler returns, and whether the trigger fired on this frame. */
  datatype StepResult = StepResult(state: State, looking: bool, fired: bool)

  /** The away threshold fixed in the tracker's constructor. */
  const LookAwayThreshold: real := 0.5

  /** The state right after construction. */
  const Initial: State := State(false, None, false)

  /** The session invariant: the trigger is only ever marked as sent while
      an away-episode is running. */
  predicate Valid(s: State)
  {
    s.signalSent ==> s.lookAwayStart.Some?
  }

  /** The away flag an episode inherits from the previous state: a running
      timer keeps its flag, a fresh episode starts unsent. */
  function SentBefore(s: State): bool
  {
    s.lookAwayStart.Some? && s.signalSent
  }

  /** One frame of the timer logic. */
  function Step(s: State, ev: Event, now: real, threshold: real): (r: StepResult)
    // A looking frame resets the episode and never fires.
    ensures ev == Looking ==>
      r.state == State(true, None, false) && r.looking && !r.fired
    // Away and no-face frames report "not looking"; only a face frame
    // overwrites the stored classification.
    ensures ev != Looking ==> !r.looking
    ensures ev == NotLooking ==> !r.state.lookingAtScreen
    ensures ev == NoFace ==> r.state.lookingAtScreen == s.lookingAtScreen
    // A fresh episode starts its timer now; a running one never moves it.
    ensures ev != Looking ==>
      r.state.lookAwayStart == Some(if s.lookAwayStart.Some? then s.lookAwayStart.value else now)
    // Fire exactly when the episode's elapsed time has reached the
    // threshold and the episode has not fired yet; afterwards it has.
    ensures ev != Looking ==>
      (r.fired <==> now - r.state.lookAwayStart.value >= threshold && !SentBefore(s))
    ensures ev != Looking ==> (r.state.signalSent <==> SentBefore(s) || r.fired)
    ensures Valid(r.state)
  {
    match ev
    case Looking => StepResult(State(true, None, false), true, false)
    case _ =>
      var looking := if ev == NoFace then s.lookingAtScreen else false;
      var start := if s.lookAwayStart.None? then now else s.lookAwayStart.value;
      var sent := if s.lookAwayStart.None? then false else s.signalSent;
      var fire := now - start >= threshold && !sent;
      StepResult(State(looking, Some(start), sent || fire), false, fire)
  }

  /** The state after processing every frame of `ins` in order. */
  function Run(s: State, ins: seq<Input>, threshold: real): State
  {
    if |ins| == 0 then s
    else
      var last := ins[|ins| - 1];
      Step(Run(s, ins[..|ins| - 1], threshold), last.event, last.time, threshold).state
  }

  /** Whether frame `i` of `ins` fired the trigger. */
  function FiredAt(s: State, ins: seq<Input>, i: nat, threshold: real): bool
    requires i < |ins|
  {
    Step(Run(s, ins[..i], threshold), ins[i].event, ins[i].time, threshold).fired
  }

  /** How many frames of `ins` fired the trigger. */
  function FireCount(s: State, ins: seq<Input>, threshold: real): nat
  {
    if |ins| == 0 then 0
    else FireCount(s, ins[..|ins| - 1], threshold) + (if FiredAt(s, ins, |ins| - 1, threshold) then 1 else 0)
  }

  predicate AwayOnly(ins: seq<Input>)
  {
    forall k :: 0 <= k < |ins| ==> ins[k].event != Looking
  }

  predicate LookingOnly(ins: seq<Input>)
  {
    forall k :: 0 <= k < |ins| ==> ins[k].event == Looking
  }

  /** The instant the current episode began, as seen from state `s` before
      the non-empty away trace `ins`: the running timer's start, or else the
      time of the trace's first frame. */
  function EpisodeStart(s: State, ins: seq<Input>): real
    requires |ins| > 0
  {
    if s.lookAwayStart.Some? then s.lookAwayStart.value else ins[0].time
  }

  /** Frame `j` is at or past the threshold, measured from `start`. */
  predicate Crosses(start: real, ins: seq<Input>, j: nat, threshold: real)
    requires j < |ins|
  {
    ins[j].time - start >= threshold
  }

  predicate CrossedBefore(start: real, ins: seq<Input>, k: nat, threshold: real)
    requires k <= |ins|
  {
    exists j :: 0 <= j < k && Crosses(start, ins, j, threshold)
  }

  lemma PrefixOfPrefix(ins: seq<Input>, i: nat, k: nat)
    requires i <= k <= |ins|
    ensures ins[..k][..i] == ins[..i]
  {
  }

  /** Every state reached from the initial one (indeed from any valid one)
      satisfies the session invariant, and the initial state does too. */
  lemma {:induction false} RunPreservesValid(s: State, ins: seq<Input>, threshold: real)
    requires Valid(s)
    ensures Valid(Run(s, ins, threshold))
  {
    if |ins| > 0 {
      RunPreservesValid(s, ins[..|ins| - 1], threshold);
    }
  }

  lemma InitialIsValid()
    ensures Valid(Initial) && Initial.lookAwayStart.None? && !Initial.signalSent
  {
  }

  /** Inside one away-episode the timer start is fixed at the episode's
      first frame (not a sliding window), and the trigger counts as sent
      exactly when some frame so far reached the threshold (or it had
      already been sent when the trace began). */
  lemma {:induction false} EpisodeState(s: State, ins: seq<Input>, threshold: real)
    requires Valid(s) && AwayOnly(ins) && |ins| > 0
    ensures Run(s, ins, threshold).lookAwayStart == Some(EpisodeStart(s, ins))
    ensures Run(s, ins, threshold).signalSent <==>
      s.signalSent || CrossedBefore(EpisodeStart(s, ins), ins, |ins|, threshold)
  {
    var n := |ins|;
    var pre := ins[..n - 1];
    var e := EpisodeStart(s, ins);
    if n == 1 {
      assert pre == [];
      if Crosses(e, ins, 0, threshold) {
        assert CrossedBefore(e, ins, 1, threshold);
      }
    } else {
      assert AwayOnly(pre);
      assert pre[0] == ins[0];
      EpisodeState(s, pre, threshold);
      assert CrossedBefore(e, pre, n - 1, threshold) <==> CrossedBefore(e, ins, n - 1, threshold) by {
        forall j | 0 <= j < n - 1
          ensures Crosses(e, pre, j, threshold) == Crosses(e, ins, j, threshold)
        {
        }
      }
      if Crosses(e, ins, n - 1, threshold) {
        assert CrossedBefore(e, ins, n, threshold);
      } else {
        assert CrossedBefore(e, ins, n, threshold) ==> CrossedBefore(e, ins, n - 1, threshold);
      }
    }
  }

  /** The single-trigger guarantee, frame by frame: inside an away-episode
      frame `i` fires exactly when it is the FIRST frame whose elapsed time
      since the episode began reaches the threshold, provided the episode
      had not fired before the trace began. */
  lemma FiresAtFirstCrossing(s: State, ins: seq<Input>, i: nat, threshold: real)
    requires Valid(s) && AwayOnly(ins) && i < |ins|
    ensures FiredAt(s, ins, i, threshold) <==>
      && !s.signalSent
      && Crosses(EpisodeStart(s, ins), ins, i, threshold)
      && !CrossedBefore(EpisodeStart(s, ins), ins, i, threshold)
  {
    var e := EpisodeStart(s, ins);
    var pre := ins[..i];
    var before := Run(s, pre, threshold);
    if i == 0 {
      assert pre == [];
    } else {
      assert AwayOnly(pre);
      assert pre[0] == ins[0];
      EpisodeState(s, pre, threshold);
      assert CrossedBefore(e, pre, i, threshold) <==> CrossedBefore(e, ins, i, threshold) by {
        forall j | 0 <= j < i
          ensures Crosses(e, pre, j, threshold) == Crosses(e, ins, j, threshold)
        {
        }
      }
    }
  }

  /** Counting form of the same guarantee: an away-episode fires exactly
      once if some frame reaches the threshold and it had not fired before,
      and never otherwise. In particular it fires at most once. */
  lemma {:induction false} EpisodeFiresAtMostOnce(s: State, ins: seq<Input>, threshold: real)
    requires Valid(s) && AwayOnly(ins) && |ins| > 0
    ensures FireCount(s, ins, threshold) ==
      if !s.signalSent && CrossedBefore(EpisodeStart(s, ins), ins, |ins|, threshold) then 1 else 0
    ensures FireCount(s, ins, threshold) <= 1
  {
    var n := |ins|;
    var pre := ins[..n - 1];
    var e := EpisodeStart(s, ins);
    FiresAtFirstCrossing(s, ins, n - 1, threshold);
    if n == 1 {
      assert pre == [];
      if Crosses(e, ins, 0, threshold) {
        assert CrossedBefore(e, ins, 1, threshold);
      }
    } else {
      assert AwayOnly(pre);
      assert pre[0] == ins[0];
      EpisodeFiresAtMostOnce(s, pre, threshold);
      assert CrossedBefore(e, pre, n - 1, threshold) <==> CrossedBefore(e, ins, n - 1, threshold) by {
        forall j | 0 <= j < n - 1
          ensures Crosses(e, pre, j, threshold) == Crosses(e, ins, j, threshold)
        {
        }
      }
      if Crosses(e, ins, n - 1, threshold) {
        assert CrossedBefore(e, ins, n, threshold);
      } else {
        assert CrossedBefore(e, ins, n, threshold) ==> CrossedBefore(e, ins, n - 1, threshold);
      }
    }
  }

  /** Repeated looking frames never fire and keep the timer cleared. */
  lemma {:induction false} LookingNeverFires(s: State, ins: seq<Input>, threshold: real)
    requires LookingOnly(ins) && |ins| > 0
    ensures FireCount(s, ins, threshold) == 0
    ensures Run(s, ins, threshold) == State(true, None, false)
  {
    var n := |ins|;
    var pre := ins[..n - 1];
    if n > 1 {
      assert LookingOnly(pre);
      LookingNeverFires(s, pre, threshold);
    }
  }

  /** Processing a trace in two pieces is processing it whole. */
  lemma {:induction false} RunAppend(s: State, a: seq<Input>, b: seq<Input>, threshold: real)
    ensures Run(s, a + b, threshold) == Run(Run(s, a, threshold), b, threshold)
  {
    if |b| == 0 {
      assert a + b == a;
    } else {
      assert (a + b)[..|a + b| - 1] == a + b[..|b| - 1];
      RunAppend(s, a, b[..|b| - 1], threshold);
    }
  }

  /** Whether a frame fires depends only on the frames up to it. */
  lemma FiredAtPrefix(s: State, ins: seq<Input>, m: nat, k: nat, threshold: real)
    requires k < m <= |ins|
    ensures FiredAt(s, ins[..m], k, threshold) == FiredAt(s, ins, k, threshold)
  {
    PrefixOfPrefix(ins, k, m);
  }

  /** A frame of a longer trace fires exactly when it would fire in the
      remainder of the trace, started from the state the earlier frames
      left behind. */
  lemma FiredAtAppend(s: State, a: seq<Input>, b: seq<Input>, i: nat, threshold: real)
    requires i < |b|
    ensures FiredAt(s, a + b, |a| + i, threshold) == FiredAt(Run(s, a, threshold), b, i, threshold)
  {
    assert (a + b)[..|a| + i] == a + b[..i];
    RunAppend(s, a, b[..i], threshold);
  }

  /** The single-trigger guarantee over whole sessions: from any valid
      state, two fires in one trace always have a looking frame between
      them, so each away-episode fires at most once. */
  lemma FiresSeparatedByLooking(s: State, ins: seq<Input>, i: nat, j: nat, threshold: real)
    requires Valid(s) && i < j < |ins| && FiredAt(s, ins, i, threshold)
    ensures FiredAt(s, ins, j, threshold) ==> exists k :: i < k <= j && ins[k].event == Looking
  {
    if forall k :: i < k <= j ==> ins[k].event != Looking {
      var a, rest := ins[..i], ins[i..];
      var seg := rest[..j - i + 1];
      assert ins == a + rest;
      var t := Run(s, a, threshold);
      RunPreservesValid(s, a, threshold);
      FiredAtAppend(s, a, rest, 0, threshold);
      FiredAtAppend(s, a, rest, j - i, threshold);
      FiredAtPrefix(t, rest, j - i + 1, 0, threshold);
      FiredAtPrefix(t, rest, j - i + 1, j - i, threshold);
      assert AwayOnly(seg);
      FiresAtFirstCrossing(t, seg, 0, threshold);
      FiresAtFirstCrossing(t, seg, j - i, threshold);
      assert CrossedBefore(EpisodeStart(t, seg), seg, j - i, threshold);
    }
  }

  /** A looking frame erases all history: whatever came before it, the
      frames after it are processed exactly as from the freshly reset state,
      so a new away-episode can trigger again independently of earlier ones. */
  lemma ResetForgetsHistory(s: State, pre: seq<Input>, t: real, post: seq<Input>, threshold: real)
    ensures Run(s, pre + [Input(Looking, t)] + post, threshold)
         == Run(State(true, None, false), post, threshold)
  {
    RunAppend(s, pre + [Input(Looking, t)], post, threshold);
    RunAppend(s, pre, [Input(Looking, t)], threshold);
    assert [Input(Looking, t)][..0] == [];
  }

  /** The timer fields of a state, without the stored classification. */
  function Timer(s: State): (Option<real>, bool)
  {
    (s.lookAwayStart, s.signalSent)
  }

  /** Two traces that agree on timestamps and on which frames are looking
      frames; they may differ in whether an away frame had a face. */
  predicate SameTiming(a: seq<Input>, b: seq<Input>)
  {
    && |a| == |b|
    && forall k :: 0 <= k < |a| ==> a[k].time == b[k].time && (a[k].event == Looking <==> b[k].event == Looking)
  }

  /** No-face frames drive the away timer exactly like frames with a face
      that is not looking: trading one for the other anywhere in a trace
      changes neither the timer nor a single fire. */
  lemma {:induction false} NoFaceCountsAsAway(s1: State, s2: State, a: seq<Input>, b: seq<Input>, threshold: real)
    requires Timer(s1) == Timer(s2) && SameTiming(a, b)
    ensures Timer(Run(s1, a, threshold)) == Timer(Run(s2, b, threshold))
    ensures forall i :: 0 <= i < |a| ==> FiredAt(s1, a, i, threshold) == FiredAt(s2, b, i, threshold)
  {
    if |a| > 0 {
      var n := |a|;
      assert SameTiming(a[..n - 1], b[..n - 1]);
      NoFaceCountsAsAway(s1, s2, a[..n - 1], b[..n - 1], threshold);
      forall i | 0 <= i < n
        ensures FiredAt(s1, a, i, threshold) == FiredAt(s2, b, i, threshold)
      {
        if i < n - 1 {
          PrefixOfPrefix(a, i, n - 1);
          PrefixOfPrefix(b, i, n - 1);
          assert FiredAt(s1, a[..n - 1], i, threshold) == FiredAt(s2, b[..n - 1], i, threshold);
        }
      }
    }
  }

  /** The worked example: a look away at t = 0.2 followed by away frames at
      0.4, 0.6, 0.75 and 0.9 with the 0.5 s threshold fires exactly once, on
      the 0.75 frame, the first at least 0.5 s after the episode began. Every
      elapsed time here is at least 0.05 s away from the threshold, so the
      outcome does not hinge on rounding of the timestamps. */
  lemma WorkedExample()
    ensures var ins := [Input(Looking, 0.0), Input(NotLooking, 0.2), Input(NotLooking, 0.4),
                        Input(NoFace, 0.6), Input(NotLooking, 0.75), Input(NotLooking, 0.9)];
      && !FiredAt(Initial, ins, 0, LookAwayThreshold)
      && !FiredAt(Initial, ins, 1, LookAwayThreshold)
      && !FiredAt(Initial, ins, 2, LookAwayThreshold)
      && !FiredAt(Initial, ins, 3, LookAwayThreshold)
      && FiredAt(Initial, ins, 4, LookAwayThreshold)
      && !FiredAt(Initial, ins, 5, LookAwayThreshold)
      && Run(Initial, ins, LookAwayThreshold).lookAwayStart == Some(0.2)
  {
    var ins := [Input(Looking, 0.0), Input(NotLooking, 0.2), Input(NotLooking, 0.4),
                Input(NoFace, 0.6), Input(NotLooking, 0.75), Input(NotLooking, 0.9)];
    var first, away := [ins[0]], ins[1..];
    assert ins == first + away;
    assert ins[..0] == [];
    assert Run(Initial, first, LookAwayThreshold) == State(true, None, false) by {
      assert first[..0] == [];
    }
    FiredAtAppend(Initial, first, away, 0, LookAwayThreshold);
    FiredAtAppend(Initial, first, away, 1, LookAwayThreshold);
    FiredAtAppend(Initial, first, away, 2, LookAwayThreshold);
    FiredAtAppend(Initial, first, away, 3, LookAwayThreshold);
    FiredAtAppend(Initial, first, away, 4, LookAwayThreshold);
    RunAppend(Initial, first, away, LookAwayThreshold);
    WorkedEpisode();
  }

  /** The away-episode of the worked example, from the reset state. */
  lemma WorkedEpisode()
    ensures var away := [Input(NotLooking, 0.2), Input(NotLooking, 0.4), Input(NoFace, 0.6),
                         Input(NotLooking, 0.75), Input(NotLooking, 0.9)];
      var s := State(true, None, false);
      && !FiredAt(s, away, 0, LookAwayThreshold)
      && !FiredAt(s, away, 1, LookAwayThreshold)
      && !FiredAt(s, away, 2, LookAwayThreshold)
      && FiredAt(s, away, 3, LookAwayThreshold)
      && !FiredAt(s, away, 4, LookAwayThreshold)
      && Run(s, away, LookAwayThreshold).lookAwayStart == Some(0.2)
  {
    var away := [Input(NotLooking, 0.2), Input(NotLooking, 0.4), Input(NoFace, 0.6),
                 Input(NotLooking, 0.75), Input(NotLooking, 0.9)];
    var s := State(true, None, false);
    assert AwayOnly(away);
    FiresAtFirstCrossing(s, away, 0, LookAwayThreshold);
    FiresAtFirstCrossing(s, away, 1, LookAwayThreshold);
    FiresAtFirstCrossing(s, away, 2, LookAwayThreshold);
    FiresAtFirstCrossing(s, away, 3, LookAwayThreshold);
    FiresAtFirstCrossing(s, away, 4, LookAwayThreshold);
    assert Crosses(0.2, away, 3, LookAwayThreshold);
    EpisodeState(s, away, LookAwayThreshold);
  }

}
