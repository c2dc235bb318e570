/** The application side of the firmware (src/main.c): the button handler
    that tracks button 1, the servo cycle with first-error short-circuit,
    and the LED callback that the GATT service invokes. Driver calls become
    commands in the result; what each PWM call returns is an input. */
module Firmware {
  import Common
  import Lbs

  /** `DK_BTN1_MSK`: button 1 is bit 0 of the board's button masks. */
  const Btn1Mask: bv32 := 1

  /** `PWM_MSEC(20)`: the servo PWM period in nanoseconds. */
  const PwmPeriodNs: nat := 20_000_000

  /** The servo cycle's two pulse widths, in nanoseconds. */
  const CycleLowPulse: nat := 1_125_000
  const CycleHighPulse: nat := 1_875_000

  /** The pulses of one cycle: out, over, back. */
  const CyclePulses: seq<nat> := [CycleLowPulse, CycleHighPulse, CycleLowPulse]

  /** Zephyr's `ENODEV`. */
  const ENODEV: int := 19

  /** `BLINKY_LED` is `DK_LED2`, the board's LED with index 1. */
  const BlinkyLed: nat := 1

  /** A driver request the application makes. */
  datatype Command = SetPulse(periodNs: nat, pulseNs: nat) | SetLed(led: nat, on: bool)

  function Pressed(mask: bv32): bool
  {
    mask & Btn1Mask != 0
  }

  /** `button_handler`: follows button 1 when its bit changed, and ignores
      every other bit. */
  function ButtonHandler(appState: bool, buttonState: bv32, hasChanged: bv32): (r: bool)
    // Button 1 changed and is down: pressed.
    ensures Pressed(hasChanged) && Pressed(buttonState) ==> r
    // Button 1 changed and is up: released.
    ensures Pressed(hasChanged) && !Pressed(buttonState) ==> !r
    // Button 1 did not change: untouched, whatever the other bits say.
    ensures !Pressed(hasChanged) ==> r == appState
  {
    if hasChanged & buttonState & Btn1Mask != 0 then true
    else if hasChanged & Btn1Mask != 0 then false
    else appState
  }

  /** Only bit 0 of either mask can influence the handler. */
  lemma OnlyButton1Matters(appState: bool, buttonState: bv32, hasChanged: bv32)
    ensures ButtonHandler(appState, buttonState, hasChanged)
         == ButtonHandler(appState, buttonState & Btn1Mask, hasChanged & Btn1Mask)
  {
  }

  /** One report from the button driver. */
  datatype ButtonEvent = ButtonEvent(state: bv32, changed: bv32)

  /** The application's button flag after a series of reports. */
  function FoldButtons(appState: bool, evs: seq<ButtonEvent>): bool
  {
    if |evs| == 0 then appState
    else ButtonHandler(FoldButtons(appState, evs[..|evs| - 1]), evs[|evs| - 1].state, evs[|evs| - 1].changed)
  }

  /** Report `k` is the last one in which button 1 changed. */
  predicate LastChange(evs: seq<ButtonEvent>, k: nat)
  {
    k < |evs| && Pressed(evs[k].changed) && forall j :: k < j < |evs| ==> !Pressed(evs[j].changed)
  }

  /** After any series of reports the flag is the level of button 1 in the
      last report that changed it, or the starting value if none did. */
  lemma {:induction false} FlagFollowsLastChange(appState: bool, evs: seq<ButtonEvent>)
    ensures (forall j :: 0 <= j < |evs| ==> !Pressed(evs[j].changed)) ==> FoldButtons(appState, evs) == appState
    ensures forall k: nat :: LastChange(evs, k) ==> FoldButtons(appState, evs) == Pressed(evs[k].state)
  {
    if |evs| > 0 {
      var n := |evs|;
      var pre := evs[..n - 1];
      FlagFollowsLastChange(appState, pre);
      assert FoldButtons(appState, evs) == ButtonHandler(FoldButtons(appState, pre), evs[n - 1].state, evs[n - 1].changed);
      forall k: nat | LastChange(evs, k)
        ensures FoldButtons(appState, evs) == Pressed(evs[k].state)
      {
        if k < n - 1 {
          assert LastChange(pre, k);
        }
      }
      if forall j :: 0 <= j < n ==> !Pressed(evs[j].changed) {
        assert forall j :: 0 <= j < n - 1 ==> !Pressed(pre[j].changed);
      }
    }
  }

  /** `app_button_cb`: reports the flag and leaves it as it is. */
  function AppButtonCb(appState: bool): (r: (bool, bool))
    ensures r.0 == appState && r.1 == appState
  {
    (appState, appState)
  }

  /** The command `set_motor_angle` sends for a pulse width. */
  function PulseCommands(pulses: seq<nat>): (cmds: seq<Command>)
    ensures |cmds| == |pulses|
    ensures forall k :: 0 <= k < |pulses| ==> cmds[k] == SetPulse(PwmPeriodNs, pulses[k])
  {
    seq(|pulses|, k requires 0 <= k < |pulses| => SetPulse(PwmPeriodNs, pulses[k]))
  }

  /** Send `pulses` in order and stop at the first failure. `results[k]` is
      what the driver returns for the k-th request; it must cover every
      request that could be made. */
  function IssuePulses(pulses: seq<nat>, results: seq<int>): (r: (seq<Command>, int))
    requires |results| >= |pulses|
    // The requests made are a prefix of the pulses, in order.
    ensures |r.0| <= |pulses| && r.0 == PulseCommands(pulses[..|r.0|])
    // Every request but the last one made succeeded.
    ensures forall k :: 0 <= k < |r.0| - 1 ==> results[k] == 0
    // Success means every pulse was requested and every request succeeded.
    ensures r.1 == 0 <==> forall k :: 0 <= k < |pulses| ==> results[k] == 0
    ensures r.1 == 0 ==> |r.0| == |pulses|
    // Failure returns the error of the last request made, which is the first failure.
    ensures r.1 != 0 ==> |r.0| > 0 && r.1 == results[|r.0| - 1]
    decreases |pulses|
  {
    if |pulses| == 0 then ([], 0)
    else if results[0] != 0 then ([SetPulse(PwmPeriodNs, pulses[0])], results[0])
    else
      var rest := IssuePulses(pulses[1..], results[1..]);
      assert pulses[..|rest.0| + 1] == [pulses[0]] + pulses[1..][..|rest.0|];
      ([SetPulse(PwmPeriodNs, pulses[0])] + rest.0, rest.1)
  }

  /** `run_servo_cycle`: nothing is sent to a device that is not ready. */
  function RunServoCycle(ready: bool, results: seq<int>): (r: (seq<Command>, int))
    requires |results| >= |CyclePulses|
    ensures !ready ==> r == ([], -ENODEV)
    ensures ready ==> r == IssuePulses(CyclePulses, results)
  {
    if !ready then ([], -ENODEV) else IssuePulses(CyclePulses, results)
  }

  /** The three outcomes of a cycle on a ready device: all three pulses,
      or the pulses up to and including the first failing one with its code. */
  lemma ServoCycleOutcomes(results: seq<int>)
    requires |results| >= 3
    ensures results[0] != 0 ==>
      RunServoCycle(true, results) == ([SetPulse(PwmPeriodNs, CycleLowPulse)], results[0])
    ensures results[0] == 0 && results[1] != 0 ==>
      RunServoCycle(true, results)
        == ([SetPulse(PwmPeriodNs, CycleLowPulse), SetPulse(PwmPeriodNs, CycleHighPulse)], results[1])
    ensures results[0] == 0 && results[1] == 0 ==>
      RunServoCycle(true, results)
        == ([SetPulse(PwmPeriodNs, CycleLowPulse), SetPulse(PwmPeriodNs, CycleHighPulse),
             SetPulse(PwmPeriodNs, CycleLowPulse)], results[2])
  {
    var r := RunServoCycle(true, results);
    var lo, hi := SetPulse(PwmPeriodNs, CycleLowPulse), SetPulse(PwmPeriodNs, CycleHighPulse);
    if results[0] == 0 && results[1] != 0 {
      assert |r.0| == 2;
      assert r.0 == PulseCommands(CyclePulses[..2]);
      assert r.0 == [lo, hi];
    }
    if results[0] == 0 && results[1] == 0 {
      assert |r.0| == 3;
      assert r.0 == PulseCommands(CyclePulses[..3]);
      assert r.0 == [lo, hi, lo];
    }
  }

  /** `app_led_cb`: on runs a servo cycle, off sends the minimum pulse
      (`minPulse`, a board property), and either way the LED is then set to
      the requested state; driver errors are only logged. */
  function AppLedCb(on: bool, ready: bool, results: seq<int>, minPulse: nat): (cmds: seq<Command>)
    requires |results| >= |CyclePulses|
    ensures |cmds| > 0 && cmds[|cmds| - 1] == SetLed(BlinkyLed, on)
    ensures on ==> cmds[..|cmds| - 1] == RunServoCycle(ready, results).0
    ensures !on ==> cmds == [SetPulse(PwmPeriodNs, minPulse), SetLed(BlinkyLed, on)]
  {
    var servo := if on then RunServoCycle(ready, results).0 else IssuePulses([minPulse], results).0;
    assert (servo + [SetLed(BlinkyLed, on)])[..|servo|] == servo;
    servo + [SetLed(BlinkyLed, on)]
  }

  /** The callbacks `main` registers with the service: both present. */
  const AppCallbacks: Lbs.Callbacks := Lbs.Callbacks(true, true)

  /** A GATT write to the LED characteristic of the service as `main` sets
      it up, followed by whatever the LED callback does. */
  function HandleLedWrite(buf: seq<Lbs.uint8>, offset: Lbs.uint16, ready: bool, results: seq<int>,
                          minPulse: nat): (r: (int, seq<Command>))
    requires |buf| < 0x1_0000 && |results| >= |CyclePulses|
    ensures r.0 < 0 ==> r.1 == []
  {
    var svc := Lbs.Init(Lbs.Initial, Common.Some(AppCallbacks)).0;
    var w := Lbs.WriteLed(svc, buf, offset);
    (w.ret, if |w.ledCalls| == 1 then AppLedCb(w.ledCalls[0], ready, results, minPulse) else [])
  }

  /** End to end: a client writing 1 runs the servo cycle and lights the
      LED; writing 0 sends the minimum pulse and turns it off; a malformed
      write reaches no driver at all. */
  lemma LedWriteEndToEnd(ready: bool, results: seq<int>, minPulse: nat, buf: seq<Lbs.uint8>, offset: Lbs.uint16)
    requires |buf| < 0x1_0000 && |results| >= |CyclePulses|
    ensures HandleLedWrite([1], 0, ready, results, minPulse)
         == (1, RunServoCycle(ready, results).0 + [SetLed(BlinkyLed, true)])
    ensures HandleLedWrite([0], 0, ready, results, minPulse)
         == (1, [SetPulse(PwmPeriodNs, minPulse), SetLed(BlinkyLed, false)])
    ensures !(|buf| == 1 && offset == 0 && buf[0] <= 1) ==> HandleLedWrite(buf, offset, ready, results, minPulse).1 == []
  {
    var c := AppLedCb(true, ready, results, minPulse);
    assert c == c[..|c| - 1] + [c[|c| - 1]];
    Lbs.WriteAcceptsExactly(Lbs.Init(Lbs.Initial, Common.Some(AppCallbacks)).0, buf, offset);
  }

  /** End to end: after button 1 is pressed, a client reading the button
      characteristic gets 1; after it is released, 0. */
  lemma ButtonReadEndToEnd(appState: bool, buttonState: bv32, hasChanged: bv32)
    requires Pressed(hasChanged)
    ensures var flag := ButtonHandler(appState, buttonState, hasChanged);
      var svc := Lbs.Init(Lbs.Initial, Common.Some(AppCallbacks)).0;
      Lbs.ReadButton(svc, AppButtonCb(flag).0, 1, 0).data == [if Pressed(buttonState) then 1 else 0]
  {
  }
}
