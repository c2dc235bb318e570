# Gaze-attention detector and BLE servo firmware — a Dafny model

The repository watches a user through a webcam. A face mesh gives eye and
iris landmarks, and simple pixel thresholds decide whether the user looks at
the screen. A debounce timer fires a one-byte trigger to a microcontroller
once the user has looked away long enough. The firmware side is a
Bluetooth LE "LED/button" service. A write of 1 to its LED characteristic
runs a servo cycle; its button characteristic reports button 1.

This project models the repository's own logic as pure functions over
immutable values, in eight modules:

- `Common`: the `Option` wrapper, integer `Abs`, and `Trunc`, Python's
  truncating `int()` applied to a real number.
- `Geometry`: landmarks, the fixed landmark index sets, and the eye and iris
  centres. A centre is the truncated mean of scaled landmark coordinates.
  It also defines the camera `Frame` that both tracker variants consume.
- `OffsetClassifier`: policy A, the iris-offset classifier of
  `model/eye_tracking_model.py`.
- `Attention`: the look-away debounce state machine of the same file. It is
  a pure `Step(state, event, now, threshold)`, folded over traces of
  `Input(event, time)` by `Run`, `FiredAt` and `FireCount`.
- `EyeTracker`: that file's per-frame pipeline. It goes from landmarks (or no
  face) to an event, then to the state machine, then to the serial sink.
- `ZoneTracker`: policy B of `model/test_model.py`, the cached central zone.
- `Lbs`: the GATT service of `src/my_lbs.c`. It covers the write
  validation, the button read and callback registration.
- `Firmware`: `src/main.c`. It covers the button handler, the servo cycle
  with first-error short-circuit, the LED callback, and two end-to-end
  lemmas through the service.

Time is a `real` number of seconds. The away threshold is a parameter of
every state-machine member. The code's constant is `LookAwayThreshold = 0.5`
(model/eye_tracking_model.py:43). A comment (:145) and a start-up message
(:215) speak of two seconds instead, so no member fixes the value.

The serial trigger is the byte the code writes, `b'1'`. That is the ASCII
character '1' (`0x31`), not the value 1.

`bt_gatt_attr_read` belongs to the Bluetooth host stack. It is not part of
this model's sources. `Lbs.AttrRead` gives it the behaviour the stack
documents: an offset past the value is refused with Invalid Offset, and
otherwise at most the buffer's length is copied from the offset.

## Model

| member | source | states |
|---|---|---|
| Common.Trunc | model/eye_tracking_model.py:50 | `int(...)` of a mean: the unique integer on the zero side of the value, less than one away from it |
| Common.Abs | model/eye_tracking_model.py:75-78 | the absolute value used by the centring test is the argument or its negation, never negative |
| Geometry.ScaledX | model/eye_tracking_model.py:48 | the list holds, in index order, the x coordinate of each selected landmark times the frame width |
| Geometry.ScaledY | model/eye_tracking_model.py:49 | the list holds, in index order, the y coordinate of each selected landmark times the frame height |
| Geometry.Center | model/eye_tracking_model.py:46-56 | models `get_eye_center` and `get_iris_position`, whose bodies are identical; the helpers differ only in the index set passed. Each coordinate of a centre is the integer less than one away from the mean of the scaled coordinates, on the side of zero (truncation toward zero) |
| Geometry.Mean | model/eye_tracking_model.py:50 | the mean times the number of values is their sum |
| Geometry.SumBounds | model/eye_tracking_model.py:48-50 | n values in [lo, hi] sum to a value in [n·lo, n·hi] |
| Geometry.MeanBounds | model/eye_tracking_model.py:48-50 | a mean lies between any lower and upper bound of the values averaged |
| Geometry.CenterInsideFrame | model/eye_tracking_model.py:46-56 | landmarks normalised to [0, 1] give centres inside the w-by-h frame, 0 ≤ x ≤ w and 0 ≤ y ≤ h |
| Geometry.CenterOfCoincidentLandmarks | model/eye_tracking_model.py:46-56 | when all selected landmarks coincide, the centre is that landmark's scaled position truncated, so averaging adds no drift |
| Geometry.CenterDependsOnlyOnSelected | model/test_model.py:27-37 | a centre depends only on the landmarks at its indices |
| OffsetClassifier.GazeOffset | model/eye_tracking_model.py:58-62 | the offset is the vector that carries the eye centre onto the iris centre, componentwise |
| OffsetClassifier.IsLookingAtScreen | model/eye_tracking_model.py:64-80 | true iff both irises lie strictly within ±4 px horizontally and ±2 px vertically of their eye centres; a true verdict allows only vertical offsets -1, 0 and 1 |
| OffsetClassifier.ShapeIrrelevant | model/eye_tracking_model.py:64-65 | the frame-shape argument has no influence on the decision |
| OffsetClassifier.OneEyeOffSuffices | model/eye_tracking_model.py:74-80 | one eye failing one bound makes the decision false (logical AND) |
| OffsetClassifier.TranslationAndSwapInvariant | model/eye_tracking_model.py:64-80 | the decision depends only on offsets: it is unchanged when a whole eye is moved, or when the two eyes swap roles |
| Attention.Step | model/eye_tracking_model.py:137-182 | a looking frame resets the timer and never fires. An away or no-face frame starts the timer only when none runs and never moves a running one. It fires iff the elapsed time since the episode start has reached the threshold and the episode has not fired yet, and then marks the episode as signalled. No-face frames keep the stored classification. The invariant holds afterwards |
| Attention.InitialIsValid | model/eye_tracking_model.py:42-44 | the constructed state has no timer, nothing sent, and satisfies the invariant |
| Attention.RunPreservesValid | model/eye_tracking_model.py:140-178 | over any trace, `signal_sent` implies a running timer, in every reachable state |
| Attention.EpisodeState | model/eye_tracking_model.py:140-151 | within an away-episode the timer start stays at the episode's first frame (no sliding window). The episode counts as signalled iff some frame so far reached the threshold |
| Attention.FiresAtFirstCrossing | model/eye_tracking_model.py:145-151 | within an away-episode, a frame fires iff it is the first whose elapsed time since the episode start reaches the threshold, and the episode had not fired before |
| Attention.EpisodeFiresAtMostOnce | model/eye_tracking_model.py:148-151 | an away-episode that had not fired before the trace fires exactly once if some frame reaches the threshold and never otherwise; an already signalled one never fires; so it fires at most once |
| Attention.LookingNeverFires | model/eye_tracking_model.py:157-162 | repeated looking frames never fire and keep the timer cleared |
| Attention.RunAppend | model/eye_tracking_model.py:98-182 | processing a trace in two pieces gives the same state as processing it whole |
| Attention.FiredAtPrefix | model/eye_tracking_model.py:98-182 | whether a frame fires depends only on the frames up to and including it |
| Attention.FiredAtAppend | model/eye_tracking_model.py:98-182 | a frame in the second part of a trace fires exactly when it fires in that part alone, run from the state the first part left |
| Attention.FiresSeparatedByLooking | model/eye_tracking_model.py:137-182 | from any valid state, two fires in one trace always have a looking frame between them, so a look-away episode inside a whole session fires at most once |
| Attention.ResetForgetsHistory | model/eye_tracking_model.py:157-162 | after a looking frame, later frames are processed as if from the freshly reset state, so a new episode can fire again whatever came before |
| Attention.NoFaceCountsAsAway | model/eye_tracking_model.py:169-178 | swapping no-face frames and not-looking face frames anywhere in a trace changes neither the timer nor any fire |
| Attention.WorkedExample | model/eye_tracking_model.py:137-178 | a looking frame at 0 s, a look away at 0.2 s, then away frames at 0.4, 0.6 (no face), 0.75 and 0.9 s with the 0.5 s threshold: only the 0.75 s frame fires, and the timer stays at 0.2 s |
| EyeTracker.Classify | model/eye_tracking_model.py:106-135 | no face gives NoFace; a face gives Looking iff the offset classifier accepts its four centres |
| EyeTracker.SendSignal | model/eye_tracking_model.py:82-96 | the byte '1' reaches the device iff the link is open and the write succeeds; otherwise nothing is written and nothing is raised |
| EyeTracker.ProcessFrame | model/eye_tracking_model.py:98-182 | a frame moves the state exactly as the state machine does on its classified event. It returns true iff a face looks at the screen. It writes bytes only on a fire, and on a fire writes what the sink accepts |
| EyeTracker.StateIndependentOfSink | model/eye_tracking_model.py:148-151 | the session state and the returned decision are the same whatever the link does |
| EyeTracker.FireMarksSentWithoutLink | model/eye_tracking_model.py:150-151 | on a disabled link a fire still sets `signal_sent`, and nothing is written |
| EyeTracker.NoFaceFrame | model/eye_tracking_model.py:169-182 | a no-face frame returns false and keeps `looking_at_screen`. Its timer is running afterwards, and it is signalled iff it already was or the elapsed time reached the threshold |
| EyeTracker.LookingFrameResets | model/eye_tracking_model.py:157-167 | a face that looks at the screen clears the timer, returns true and writes nothing, whatever the previous state |
| EyeTracker.Inputs | model/eye_tracking_model.py:98-135 | the state machine sees each frame as its classified event, stamped with the frame's clock reading |
| EyeTracker.TicksFollowStateMachine | model/eye_tracking_model.py:98-182 | processing frames one by one is the state machine run on the classified frames, and writes no more trigger bytes than the machine fires |
| EyeTracker.AtMostOneTriggerBytePerEpisode | model/eye_tracking_model.py:138-151 | while no face looks at the screen, the device receives at most one trigger byte, and none if the episode was already signalled |
| ZoneTracker.MakeZone | model/test_model.py:45-52 | the zone is symmetric: x1 = mw and x1 + x2 = w, likewise for y. With margins at most half the dimension it is well formed inside the frame |
| ZoneTracker.NominalMargin | model/test_model.py:45-46 | the margin is the floor of 0.3·d, and never more than half of d |
| ZoneTracker.IsLookingAtScreen | model/test_model.py:39-62 | the zone is computed only when none is cached, from this frame's size. A cached zone is kept. The decision is true iff both irises lie in the zone, bounds inclusive on all four sides |
| ZoneTracker.ProcessFrame | model/test_model.py:64-113 | a no-face frame returns false and changes nothing, not even the zone. A face frame keeps the cached zone, or caches the nominal zone for its size if none was cached. It returns true iff both iris centres lie inside that zone, and stores that decision |
| ZoneTracker.ZoneFixedByFirstFace | model/test_model.py:44-52 | after any frames, the zone is the one for the size of the first frame that had a face. It is never recomputed for later, differently sized frames, and there is none if no frame had a face |
| ZoneTracker.EyeSocketsIrrelevant | model/test_model.py:75-91 | faces that agree on the iris landmarks get the same decision and tracker, whatever their eye-socket landmarks |
| ZoneTracker.NominalZoneInsideFrame | model/test_model.py:45-52 | with the nominal margins, 0 ≤ x1 ≤ x2 ≤ w and 0 ≤ y1 ≤ y2 ≤ h |
| Lbs.GattErr | src/my_lbs.c:34 | an ATT error is reported as its negation, a negative value |
| Lbs.WriteLed | src/my_lbs.c:27-57 | a length other than 1 gives Invalid Attribute Length (0x0D) first; a non-zero offset then gives Invalid Offset (0x07). With a callback, 0 or 1 calls it exactly once with value ≠ 0 and returns 1, and any other value gives Value Not Allowed (0x13) without a call. Without a callback a well-formed write returns 1 unvalidated |
| Lbs.WriteAcceptsExactly | src/my_lbs.c:32-56 | a write succeeds iff it is one byte at offset 0 holding 0 or 1 (any byte when no callback is registered), and then returns its length. The callback runs at most once, and exactly when an accepted write has a listener |
| Lbs.RefusalCodeNamesCheck | src/my_lbs.c:32-51 | the code of a refused write names the first check that failed: Invalid Attribute Length iff the write is not one byte long, Invalid Offset iff a one-byte write has a non-zero offset, Value Not Allowed iff a one-byte write at offset 0 to a service with an LED callback holds a byte above 1 |
| Lbs.EncodeWriteRoundTrip | src/my_lbs.c:42-47 | writing the encoding of an LED state delivers exactly that state to the callback, once, and returns 1 |
| Lbs.AttrRead | src/my_lbs.c:69 | an offset past the value is refused; otherwise the bytes copied are the value from the offset, at most the buffer's length, and the count is returned |
| Lbs.BoolByte | src/my_lbs.c:45-46 | a boolean as one byte, 1 for true and 0 for false: the LED byte a client writes, and the C `bool` behind the button characteristic (src/my_lbs.c:24) |
| Lbs.ReadButton | src/my_lbs.c:59-74 | with a button callback the stored state is refreshed from it before reading, so a whole read returns the fresh value. A read at offset 1 or into an empty buffer returns 0 with no bytes, and an offset past 1 is refused with Invalid Offset; in every case the result is the host stack's read of the refreshed byte. Without a callback it returns 0 and leaves the state unchanged |
| Lbs.Init | src/my_lbs.c:85-97 | a non-null argument replaces both callbacks and a null one keeps them; the button state is untouched and the result is always 0 |
| Lbs.InitDeterminesHandlers | src/my_lbs.c:85-97 | after registration the write handler's behaviour does not depend on what was registered before |
| Firmware.ButtonHandler | src/main.c:166-174 | button 1 changed and down sets the flag; changed and up clears it; unchanged leaves it alone whatever the other bits |
| Firmware.OnlyButton1Matters | src/main.c:166-174 | masking both inputs to bit 0 does not change the handler's result |
| Firmware.FlagFollowsLastChange | src/main.c:166-174 | after any series of reports the flag equals button 1's level in the last report that changed it, or its start value if none did |
| Firmware.AppButtonCb | src/main.c:154-158 | the callback reports the flag and leaves it unchanged |
| Firmware.PulseCommands | src/main.c:36-43 | each pulse width becomes one PWM request with the 20 ms period |
| Firmware.IssuePulses | src/main.c:53-71 | the requests made are an in-order prefix of the pulses and all but the last succeeded. The result is 0 iff every pulse was requested and succeeded; otherwise it is the first failure's code |
| Firmware.RunServoCycle | src/main.c:45-72 | a device that is not ready gives -ENODEV with no request; a ready one runs the three-pulse sequence with first-error short-circuit |
| Firmware.ServoCycleOutcomes | src/main.c:53-71 | 1125000, 1875000, 1125000 ns in that order. The first failure stops the cycle after its own request and is returned |
| Firmware.AppLedCb | src/main.c:132-152 | on runs the servo cycle and off sends exactly one minimum pulse. Either way the LED is then set to the requested state, whatever the servo returned |
| Firmware.HandleLedWrite | src/main.c:160-163 | a write refused by the service reaches no driver |
| Firmware.LedWriteEndToEnd | src/main.c:132-163 | through the registered service, writing 1 runs the servo cycle then lights the LED, and writing 0 sends the minimum pulse then turns it off. A malformed write reaches no driver |
| Firmware.ButtonReadEndToEnd | src/main.c:154-174 | after button 1 changes, a read of the button characteristic returns its new level |

## Left out

- Camera capture, backend fallback and index probing, drawing, `imshow` and
  the `run` loops are I/O and user interface. Frames enter the model as a
  size plus an optional landmark list.
- The face mesh is an external model. Its output is the input sequence of
  landmarks. A face result is assumed to carry the refined mesh's 478
  landmarks, since the fixed indices reach 477.
- Opening the serial port, the settle sleep, and reading and printing the
  device's replies are foreign I/O. The model keeps only the written byte
  and whether the write succeeded.
- `time.time()` is a parameter of each step. The model has no
  floating-point arithmetic: landmark means are exact reals. Timestamps
  are also exact reals, so IEEE rounding in elapsed times is not modelled.
- ZoneTracker.NominalMargin: `int(d * 0.3)` is read over the reals as
  floor(3d/10). The double nearest to 0.3 is slightly below it, and that
  rounding is not modelled. `MakeZone` takes the margins as parameters for
  this reason.
- Geometry.Center: requires a non-empty index list within the landmark
  list. Python would raise for an empty mean or an index past the list, and
  the fixed index sets never hit either case.
- Firmware.IssuePulses: the PWM driver's answers are an input list that
  must cover every request the code may make. This is a property of the
  modelling, not a demand the source makes.
- `set_motor_angle`'s logging, the `k_msleep` waits between pulses, and
  `dk_set_led`'s error (only logged) are left out. The minimum pulse width
  comes from the devicetree, outside these sources, and is a parameter.
- `main`'s start-up sequence is platform plumbing and is left out: PWM
  readiness, LED and button init, Bluetooth enable, advertising work and
  connection callbacks. The status-LED blink loop is left out too. Its one
  modelled effect is registering both application callbacks
  (`Firmware.AppCallbacks`).
- Callbacks are modelled by whether they are registered. A call to the LED
  callback is recorded in the write's result. The button callback's answer
  is an input.
- `src/my_lbs.h` holds only UUID constants and the callback struct. The
  service and characteristic UUIDs are not modelled.
- Logging throughout is left out.
