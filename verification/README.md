# Gesture mouse controller — verified model

The program turns a webcam image of a hand into mouse control. Per frame
the hand tracker reports the 21 landmarks of each detected hand. For each
hand the program does three things:

- It scales the index fingertip (landmark 8) to screen pixels, truncating
  with `int()`.
- It moves the cursor a fifth of the way from its previous position towards
  that pixel (`smoothening = 5`).
- It compares the thumb-to-index pinch distance against two thresholds. The
  button is pressed below `CLICK_DISTANCE = 0.025` while released, and
  released above `RELEASE_DISTANCE = 0.045` while held.

The band between the two thresholds is a hysteresis: inside it nothing
changes, from either state.

This project models that per-hand update as pure functions over reals. It
has three modules:

- `Smoothing` (`smoothing.dfy`): truncation, pixel scaling and the smoothing
  step. Lemmas cover the contraction: no overshoot, four fifths of the
  distance kept per step, a closed form for repeated steps, and a
  convergence bound.
- `ClickMachine` (`click.dfy`): the two-state click machine, as a step
  function and as a run over a sequence of distances. Lemmas cover the dead
  band, the strict boundaries, strict alternation of events, the downs-minus-
  ups balance, and a reference definition of hysteresis (the state is decided
  by the most recent out-of-band distance).
- `Frame` (`frame.dfy`): one hand, one frame (every hand in order) and the
  whole loop. Each step returns the new state `(prev, clicking)` and the
  emitted intents (`MoveTo`, `Button(MouseDown)`, `Button(MouseUp)`).
  Lemmas connect the loop's button events to the click machine. They show
  that the loop's cursor follows repeated smoothing while the fingertip holds
  still, that hand-less frames change nothing, and that the cursor stays
  inside the closed screen box.

Two facts about the code shape the model:

- The loop at `main.py:53` processes every reported hand, in order.
  `main.py:12` limits the tracker to one hand, but the update itself does not
  depend on that, so `Frame.FrameStep` folds over the list of hands.
- A smoothing step lands between the old position and the target,
  inclusive. It reaches the target only if it started there
  (`Smoothing.Smooth`).

An empty hand list and a missing one are both falsy at `main.py:52`. Both
are modelled as the empty sequence of hands.

## Model

| member | source | states |
|---|---|---|
| ClickMachine.Step | main.py:80-88 | A press happens exactly when released and the distance is strictly below the press threshold. A release happens exactly when held and the distance is strictly above the release threshold. An event is emitted exactly when the state flips, and it names the new state. |
| ClickMachine.DeadBandIsSticky | main.py:29-30 | Any distance in the closed band [press, release] leaves either state unchanged and emits nothing. |
| ClickMachine.BoundariesDoNotSwitch | main.py:81-86 | With 0.025/0.045, d = 0.025 does not press and d = 0.045 does not release. Values just beyond each threshold do switch. |
| ClickMachine.Run | main.py:37-88 | Feeding n distances emits at most n events. A run that emits nothing ends in its start state. |
| ClickMachine.RunAppend | main.py:37-88 | Running two distance sequences back to back equals running their concatenation: states chain and the events concatenate. |
| ClickMachine.DeadBandRun | main.py:29-30 | A run whose distances all lie in the band emits nothing and keeps its start state. |
| ClickMachine.DeadZoneExample | main.py:29-30 | Distances 0.03, 0.035, 0.03, 0.04 from released emit no event and stay released. |
| ClickMachine.ClickRoundTripExample | main.py:80-88 | Distances 0.05, 0.02, 0.05 from released emit exactly MouseDown then MouseUp and end released. |
| ClickMachine.RunAlternates | main.py:80-88 | The events of any run strictly alternate, starting with the one the start state admits. The final state is the start state flipped once per event. |
| ClickMachine.AlternationBalance | main.py:80-88 | Along an alternating event sequence, the start level (1 if held) plus downs minus ups equals the end level. |
| ClickMachine.AlternationByIndex | main.py:80-88 | In an alternating sequence, event i is the one the start state admits after being flipped i times. |
| ClickMachine.RunFromReleased | main.py:23 | From `is_clicking = False`, the events are MouseDown at even positions and MouseUp at odd ones. Downs minus ups is 0 or 1, and the button ends held exactly when it is 1. |
| ClickMachine.RunIsSettled | main.py:80-88 | The final button state equals the independent hysteresis definition: held iff the most recent distance outside the band was below the press threshold, or the start state if there is none. |
| ClickMachine.Squared | main.py:29-30 | Squaring non-negative thresholds keeps them non-negative and keeps their order, strict or not. A positive press threshold stays positive. |
| ClickMachine.SquaredStepAgrees | main.py:75-88 | For d >= 0, stepping with d*d against squared thresholds gives the same state and event as stepping with d against the thresholds. |
| Smoothing.Truncate | main.py:62-63 | `int()` on a float: the whole number next to x on the side of zero, within 1 of x. It is non-negative for non-negative x. |
| Smoothing.ScaleWithin | main.py:62-63 | For any coordinate in [0, 1] and any size, scaling and truncating gives a pixel in [0, size]. The pixel is below size when the coordinate is below 1 and size is positive. |
| Smoothing.ScaleToScreen | main.py:62-63 | A normalized coordinate becomes a pixel in [0, size]. It lies in [0, size) when the coordinate is below 1 and size is positive. |
| Smoothing.Smooth | main.py:66-67 | The new coordinate lies between prev and target inclusive. It equals the target only if prev did. Its distance to the target is exactly 4/5 of the old one. |
| Smoothing.OutlierDamped | main.py:66-67 | Changing the target by some jump changes the output by exactly 1/5 of the jump. |
| Smoothing.Iterate | main.py:66-71 | Any number of steps towards a fixed target stays between the start and the target. |
| Smoothing.IterateClosedForm | main.py:66-71 | After k steps towards a fixed target, the offset from the target is (4/5)^k times the initial offset. |
| Smoothing.IterateApproaches | main.py:66-71 | Repeated steps reach the target only if they started there. Each step strictly decreases the distance otherwise. |
| Smoothing.IterateConverges | main.py:66-71 | After k steps at most 4/(4+k) of the initial distance remains. |
| Smoothing.IterateApproachesTarget | main.py:66-71 | The value after n steps towards a fixed target equals the target only if the start did, and keeps at most 4/(4+n) of the initial distance. |
| Smoothing.IterateShift | main.py:66-71 | One step followed by k steps towards the same target is k + 1 steps. |
| Smoothing.IterateCompose | main.py:66-71 | a steps followed by b steps towards the same target are a + b steps. |
| Frame.Target | main.py:56-63 | The cursor target is a whole pixel. It lies in the closed screen box when the index fingertip lies inside the image. It lies below width (height) when the fingertip coordinate is below 1 and the dimension is positive. |
| Frame.SmoothPoint | main.py:66-67 | Each axis of the new position lies between old position and target, with exactly 4/5 of that axis's distance to the target remaining. The point equals the target only if the old position did. |
| Frame.PinchSquared | main.py:75-76 | The squared thumb-to-index distance is non-negative. |
| Frame.HandStep | main.py:53-88 | Per hand, the cursor covers exactly a fifth of the way to the target on each axis (4/5 of the distance remains), without overshoot. The output is a MoveTo to the new stored position, then at most one button event. That event appears exactly when the button state flips, and it is the one the old state admits. |
| Frame.FrameStep | main.py:52-53 | A frame with no hand returns the state unchanged and emits nothing. A frame with n hands emits between n and 2n intents. |
| Frame.Run | main.py:37-88 | Over the whole loop, no hands means no change and no intents. n hands in total give between n and 2n intents. |
| Frame.IntentsAppend | main.py:68-87 | The button events of concatenated intent lists are the parts' button events, concatenated, and the number of moves adds up. |
| Frame.HandStepClicks | main.py:80-88 | One hand's button events and new button state are those of the click machine on its squared pinch. |
| Frame.FrameStepClicks | main.py:53-88 | A frame's button events and final button state are the click machine's run over the pinches of its hands, in order. |
| Frame.RunClicks | main.py:37-88 | The loop's button events and final button state are the click machine's run over every pinch of every frame, in order. |
| Frame.ButtonsAlternate | main.py:23-88 | From the start state over any frames, button events alternate starting with MouseDown. Downs minus ups is 0 or 1, and the button is held at the end exactly when it is 1. |
| Frame.RunSettles | main.py:37-88 | Over the whole loop, the button is held at the end exactly when the most recent out-of-band pinch was a closed one. |
| Frame.IdleFramesChangeNothing | main.py:52 | Any number of hand-less frames leaves cursor position and button state unchanged and emits nothing. A held button stays held. |
| Frame.IdleFramesHaveNoHands | main.py:52 | Frames that each report no hand report no hand in total. |
| Frame.OneMovePerHand | main.py:53-68 | Each reported hand emits exactly one MoveTo. A frame emits at most one button event per hand. |
| Frame.HandStepUsesDistance | main.py:75-88 | For the true pinch distance d (d >= 0, d*d the squared pinch), one hand's button outcome is the click step on d with 0.025/0.045. |
| Frame.FrameIterates | main.py:53-71 | While every hand's fingertip target is the same pixel, a frame with n hands leaves the cursor exactly where n repeated smoothing steps towards it lead, on both axes. |
| Frame.RunIterates | main.py:37-71 | While the fingertip target stays fixed, the whole loop leaves the cursor exactly where one smoothing step per reported hand leads. |
| Frame.RunConverges | main.py:37-71 | While the fingertip target stays fixed, the loop's cursor reaches it on an axis only if it started there. After n hands at most 4/(4+n) of the initial distance remains on each axis. |
| Frame.FrameStaysInScreenBox | main.py:53-71 | A frame whose fingertips lie inside the image keeps a cursor inside the closed box [0, width] x [0, height] inside it. |
| Frame.RunStaysInScreenBox | main.py:19-71 | Over the whole loop with in-image fingertips, a cursor that starts in the closed screen box, as (0, 0) does, stays in it. |

## Left out

- Webcam capture, mirroring, colour conversion, the preview window and the quit key (`main.py:8`, `main.py:37-46`, `main.py:104-116`). These are camera and display I/O. The loop is modelled as a finite sequence of frames.
- Hand detection (`main.py:11-13`, `main.py:49`). This is a foreign model. Its output is an input here: a sequence of hands, each 21 landmarks.
- The mouse side effects `moveTo`, `mouseDown` and `mouseUp` (`main.py:68`, `main.py:82`, `main.py:87`). They appear only as emitted intents.
- `pyautogui.size()` and `FAILSAFE` (`main.py:16`, `main.py:33`). The screen size is a parameter, and the fail-safe abort is host policy.
- Drawing the landmarks and the HOLD/MOVE label (`main.py:91-101`). These only display state.
- Floating-point rounding. All arithmetic is on exact reals.
- The square root in the pinch distance (`main.py:75-76`). The model compares the squared distance against squared thresholds. `SquaredStepAgrees` and `Frame.HandStepUsesDistance` show this makes the same decisions as the strict comparisons on the distance itself.
