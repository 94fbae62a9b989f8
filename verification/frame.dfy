/**
 The per-frame update of the gesture mouse.

 Each camera frame reports zero or more hands, each as the 21 landmarks of
 the hand-tracking convention. For every reported hand, in order, the index
 fingertip (landmark 8) is scaled to screen pixels and smoothed into the
 stored cursor position, a move to that position is emitted, and the pinch
 between thumb tip (landmark 4) and index fingertip drives the click
 machine, which may add one button event. A frame with no hand touches
 nothing and emits nothing.

 The pinch distance is the Euclidean distance, a square root. The model
 compares the squared distance against the squared thresholds instead;
 `HandStepUsesDistance` shows the decisions are the same.
 */
module Frame {
  import opened Smoothing
  import opened ClickMachine

  datatype Point = Point(x: real, y: real)

  const LandmarkCount: nat := 21
  const ThumbTip: nat := 4
  const IndexTip: nat := 8

  /** One detected hand: its landmarks in the tracker's fixed order. */
  type Landmarks = s: seq<Point> | |s| == LandmarkCount witness seq(21, _ => Point(0.0, 0.0))

  /** The screen size in pixels, read once at start. */
  datatype Screen = Screen(width: nat, height: nat)

  /** Everything the loop remembers between frames: the last cursor position
      and whether the button is held. */
  datatype State = State(prev: Point, clicking: bool)

  /** The cursor starts at the origin with the button released. */
  const Initial: State := State(Point(0.0, 0.0), false)

  /** What the loop asks of the pointer: move, or press/release the button. */
  datatype Intent = MoveTo(to: Point) | Button(event: ButtonEvent)

  /** The state after some hands, with every intent emitted on the way. */
  datatype Output = Output(state: State, intents: seq<Intent>)

  /** A landmark inside the unit square of normalized image coordinates. */
  predicate Normalized(p: Point) {
    0.0 <= p.x <= 1.0 && 0.0 <= p.y <= 1.0
  }

  /** A point inside the closed box [0, width] x [0, height]. The far edges
      are included: a fingertip at exactly 1.0 scales to `width` (or
      `height`), one past the last pixel column (or row). */
  predicate InScreenBox(screen: Screen, p: Point) {
    0.0 <= p.x <= screen.width as real && 0.0 <= p.y <= screen.height as real
  }

  /** The cursor target for a hand: its index fingertip in whole pixels. */
  function Target(screen: Screen, hand: Landmarks): (p: Point)
    ensures Normalized(hand[IndexTip]) ==> InScreenBox(screen, p)
    // a fingertip strictly inside the image lands on an existing pixel
    ensures var tip := hand[IndexTip];
            0.0 <= tip.x < 1.0 && 0 < screen.width ==> p.x < screen.width as real
    ensures var tip := hand[IndexTip];
            0.0 <= tip.y < 1.0 && 0 < screen.height ==> p.y < screen.height as real
    ensures p.x == p.x.Floor as real && p.y == p.y.Floor as real
  {
    var tip := hand[IndexTip];
    Point(ScaleToScreen(tip.x, screen.width) as real, ScaleToScreen(tip.y, screen.height) as real)
  }

  /** One smoothing step on both axes. */
  function SmoothPoint(prev: Point, target: Point): (curr: Point)
    ensures Between(prev.x, curr.x, target.x) && Between(prev.y, curr.y, target.y)
    ensures curr == target <==> prev == target
    // on each axis exactly four fifths of the distance to the target remain
    ensures Abs(curr.x - target.x) == Retention * Abs(prev.x - target.x)
    ensures Abs(curr.y - target.y) == Retention * Abs(prev.y - target.y)
  {
    Point(Smooth(prev.x, target.x), Smooth(prev.y, target.y))
  }

  /** A real squared is non-negative. */
  lemma SquareNonNegative(a: real)
    ensures 0.0 <= a * a
  {
    if a < 0.0 {
      MulNonNegative(-a, -a);
    } else {
      MulNonNegative(a, a);
    }
  }

  /** The squared Euclidean distance between thumb tip and index fingertip. */
  function PinchSquared(hand: Landmarks): (d2: real)
    ensures 0.0 <= d2
  {
    var dx := hand[ThumbTip].x - hand[IndexTip].x;
    var dy := hand[ThumbTip].y - hand[IndexTip].y;
    SquareNonNegative(dx);
    SquareNonNegative(dy);
    dx * dx + dy * dy
  }

  /** The click thresholds as compared against a squared distance. */
  const PinchThresholds: Thresholds := Squared(Reference)

  /** The update for one reported hand. */
  function HandStep(screen: Screen, s: State, hand: Landmarks): (o: Output)
    // the cursor moves towards the fingertip without overshooting on either axis
    ensures Between(s.prev.x, o.state.prev.x, Target(screen, hand).x)
    ensures Between(s.prev.y, o.state.prev.y, Target(screen, hand).y)
    // and covers exactly a fifth of the way on each axis
    ensures Abs(o.state.prev.x - Target(screen, hand).x) == Retention * Abs(s.prev.x - Target(screen, hand).x)
    ensures Abs(o.state.prev.y - Target(screen, hand).y) == Retention * Abs(s.prev.y - Target(screen, hand).y)
    // first a move to the new stored position, then at most one button event
    ensures 1 <= |o.intents| <= 2
    ensures o.intents[0] == MoveTo(o.state.prev)
    // a button event is emitted exactly when the button state flips, and it is
    // the one the old state admits
    ensures |o.intents| == 2 <==> o.state.clicking != s.clicking
    ensures |o.intents| == 2 ==> o.intents[1] == Button(Next(s.clicking))
  {
    var curr := SmoothPoint(s.prev, Target(screen, hand));
    var click := Step(PinchThresholds, s.clicking, PinchSquared(hand));
    var buttons := if click.event.Some? then [Button(click.event.value)] else [];
    Output(State(curr, click.clicking), [MoveTo(curr)] + buttons)
  }

  /** Number of moves among `intents`. */
  function Moves(intents: seq<Intent>): (n: nat)
    ensures n <= |intents|
    decreases |intents|
  {
    if intents == [] then 0
    else (if intents[0].MoveTo? then 1 else 0) + Moves(intents[1..])
  }

  /** The button events among `intents`, in order. */
  function Buttons(intents: seq<Intent>): (b: seq<ButtonEvent>)
    ensures |b| + Moves(intents) == |intents|
    decreases |intents|
  {
    if intents == [] then []
    else (if intents[0].Button? then [intents[0].event] else []) + Buttons(intents[1..])
  }

  lemma {:induction false} IntentsAppend(xs: seq<Intent>, ys: seq<Intent>)
    ensures Buttons(xs + ys) == Buttons(xs) + Buttons(ys)
    ensures Moves(xs + ys) == Moves(xs) + Moves(ys)
    decreases |xs|
  {
    if xs == [] {
      assert xs + ys == ys;
    } else {
      assert (xs + ys)[0] == xs[0];
      assert (xs + ys)[1..] == xs[1..] + ys;
      IntentsAppend(xs[1..], ys);
    }
  }

  /** The update for one frame: every reported hand, in order. */
  function FrameStep(screen: Screen, s: State, hands: seq<Landmarks>): (o: Output)
    // a frame without a hand changes nothing and emits nothing
    ensures hands == [] ==> o == Output(s, [])
    // every hand emits at most one button event besides its move
    ensures |hands| <= |o.intents| <= 2 * |hands|
    decreases |hands|
  {
    if hands == [] then Output(s, [])
    else
      var first := HandStep(screen, s, hands[0]);
      var rest := FrameStep(screen, first.state, hands[1..]);
      Output(rest.state, first.intents + rest.intents)
  }

  /** Number of hands reported over all `frames`. */
  function HandCount(frames: seq<seq<Landmarks>>): nat
    decreases |frames|
  {
    if frames == [] then 0 else |frames[0]| + HandCount(frames[1..])
  }

  /** The whole loop over a sequence of frames. */
  function Run(screen: Screen, s: State, frames: seq<seq<Landmarks>>): (o: Output)
    // with no hand in any frame nothing happens at all
    ensures HandCount(frames) == 0 ==> o == Output(s, [])
    // each hand emits one move and at most one button event
    ensures HandCount(frames) <= |o.intents| <= 2 * HandCount(frames)
    decreases |frames|
  {
    if frames == [] then Output(s, [])
    else
      var first := FrameStep(screen, s, frames[0]);
      var rest := Run(screen, first.state, frames[1..]);
      Output(rest.state, first.intents + rest.intents)
  }

  /** The squared pinch distances of some hands, in order. */
  function Pinches(hands: seq<Landmarks>): (ds: seq<real>)
    ensures |ds| == |hands|
    ensures forall i :: 0 <= i < |hands| ==> ds[i] == PinchSquared(hands[i])
    decreases |hands|
  {
    if hands == [] then [] else [PinchSquared(hands[0])] + Pinches(hands[1..])
  }

  /** The squared pinch distances of every hand of every frame, in order. */
  function AllPinches(frames: seq<seq<Landmarks>>): seq<real>
    decreases |frames|
  {
    if frames == [] then [] else Pinches(frames[0]) + AllPinches(frames[1..])
  }

  /** The button events of one hand are exactly the click machine's. */
  lemma HandStepClicks(screen: Screen, s: State, hand: Landmarks)
    ensures var o := HandStep(screen, s, hand);
            var r := ClickMachine.Run(PinchThresholds, s.clicking, [PinchSquared(hand)]);
            Buttons(o.intents) == r.events && o.state.clicking == r.clicking
  {
  }

  /** The button events of a frame are the click machine run over its hands'
      pinches, and so is the resulting button state. */
  lemma {:induction false} FrameStepClicks(screen: Screen, s: State, hands: seq<Landmarks>)
    ensures var o := FrameStep(screen, s, hands);
            var r := ClickMachine.Run(PinchThresholds, s.clicking, Pinches(hands));
            Buttons(o.intents) == r.events && o.state.clicking == r.clicking
    decreases |hands|
  {
    if hands != [] {
      var first := HandStep(screen, s, hands[0]);
      HandStepClicks(screen, s, hands[0]);
      FrameStepClicks(screen, first.state, hands[1..]);
      IntentsAppend(first.intents, FrameStep(screen, first.state, hands[1..]).intents);
      RunAppend(PinchThresholds, s.clicking, [PinchSquared(hands[0])], Pinches(hands[1..]));
    }
  }

  /** The button events of the whole loop are the click machine run over
      every pinch in order, and so is the final button state. */
  lemma {:induction false} RunClicks(screen: Screen, s: State, frames: seq<seq<Landmarks>>)
    ensures var o := Run(screen, s, frames);
            var r := ClickMachine.Run(PinchThresholds, s.clicking, AllPinches(frames));
            Buttons(o.intents) == r.events && o.state.clicking == r.clicking
    decreases |frames|
  {
    if frames != [] {
      var first := FrameStep(screen, s, frames[0]);
      FrameStepClicks(screen, s, frames[0]);
      RunClicks(screen, first.state, frames[1..]);
      IntentsAppend(first.intents, Run(screen, first.state, frames[1..]).intents);
      RunAppend(PinchThresholds, s.clicking, Pinches(frames[0]), AllPinches(frames[1..]));
    }
  }

  /** From the start state, over any frames: the button events begin with a
      press and strictly alternate, downs minus ups is 0 or 1, and the button
      is held at the end exactly when it is 1. */
  lemma ButtonsAlternate(screen: Screen, frames: seq<seq<Landmarks>>)
    ensures var b := Buttons(Run(screen, Initial, frames).intents);
            && (forall i :: 0 <= i < |b| ==> b[i] == (if i % 2 == 0 then MouseDown else MouseUp))
            && 0 <= Count(b, MouseDown) - Count(b, MouseUp) <= 1
            && (Run(screen, Initial, frames).state.clicking
                <==> Count(b, MouseDown) - Count(b, MouseUp) == 1)
  {
    RunClicks(screen, Initial, frames);
    RunFromReleased(PinchThresholds, AllPinches(frames));
  }

  /** Hysteresis over the whole loop: the button is held at the end exactly
      when the most recent pinch outside the dead band was a closed one (or,
      with no such pinch, when it was held at the start). */
  lemma RunSettles(screen: Screen, s: State, frames: seq<seq<Landmarks>>)
    ensures Run(screen, s, frames).state.clicking == Settled(PinchThresholds, s.clicking, AllPinches(frames))
  {
    RunClicks(screen, s, frames);
    RunIsSettled(PinchThresholds, s.clicking, AllPinches(frames));
  }

  /** Frames that each report no hand report no hand in total. */
  lemma {:induction false} IdleFramesHaveNoHands(frames: seq<seq<Landmarks>>)
    requires forall i :: 0 <= i < |frames| ==> frames[i] == []
    ensures HandCount(frames) == 0
    decreases |frames|
  {
    if frames != [] {
      IdleFramesHaveNoHands(frames[1..]);
    }
  }

  /** Frames in which no hand is reported leave the cursor and the button
      where they were (a held button stays held) and emit nothing. */
  lemma IdleFramesChangeNothing(screen: Screen, s: State, frames: seq<seq<Landmarks>>)
    requires forall i :: 0 <= i < |frames| ==> frames[i] == []
    ensures Run(screen, s, frames) == Output(s, [])
  {
    IdleFramesHaveNoHands(frames);
  }

  /** Every reported hand emits exactly one move, whatever the frame. */
  lemma {:induction false} OneMovePerHand(screen: Screen, s: State, hands: seq<Landmarks>)
    ensures Moves(FrameStep(screen, s, hands).intents) == |hands|
    ensures |Buttons(FrameStep(screen, s, hands).intents)| <= |hands|
    decreases |hands|
  {
    if hands != [] {
      var first := HandStep(screen, s, hands[0]);
      OneMovePerHand(screen, first.state, hands[1..]);
      IntentsAppend(first.intents, FrameStep(screen, first.state, hands[1..]).intents);
      assert Moves(first.intents) == 1 by {
        assert Moves(first.intents[1..]) == 0;
      }
    }
  }

  /** Deciding on the squared distance is deciding on the distance itself:
      for the true pinch distance `d`, the hand's button outcome is the click
      machine's step on `d` with CLICK_DISTANCE and RELEASE_DISTANCE. */
  lemma HandStepUsesDistance(screen: Screen, s: State, hand: Landmarks, d: real)
    requires 0.0 <= d && d * d == PinchSquared(hand)
    ensures var o := HandStep(screen, s, hand);
            var r := Step(Reference, s.clicking, d);
            o.state.clicking == r.clicking && Buttons(o.intents) == Emitted(r.event)
  {
    SquaredStepAgrees(Reference, s.clicking, d);
    var o := HandStep(screen, s, hand);
    assert Buttons(o.intents) == Buttons(o.intents[1..]);
  }

  /** `k` smoothing steps of a point towards a fixed target, on both axes. */
  function IteratePoint(p: Point, target: Point, k: nat): Point {
    Point(Iterate(p.x, target.x, k), Iterate(p.y, target.y, k))
  }

  /** While the fingertip target stays at `target`, a frame with n hands moves
      the cursor exactly as n repeated smoothing steps towards it. */
  lemma {:induction false} FrameIterates(screen: Screen, s: State, hands: seq<Landmarks>, target: Point)
    requires forall j :: 0 <= j < |hands| ==> Target(screen, hands[j]) == target
    ensures FrameStep(screen, s, hands).state.prev == IteratePoint(s.prev, target, |hands|)
    decreases |hands|
  {
    if hands != [] {
      var first := HandStep(screen, s, hands[0]);
      FrameIterates(screen, first.state, hands[1..], target);
      IterateShift(s.prev.x, target.x, |hands| - 1);
      IterateShift(s.prev.y, target.y, |hands| - 1);
    }
  }

  /** While the fingertip target stays at `target`, the whole loop moves the
      cursor exactly as one repeated smoothing step per reported hand. */
  lemma {:induction false} RunIterates(screen: Screen, s: State, frames: seq<seq<Landmarks>>, target: Point)
    requires forall i, j :: 0 <= i < |frames| && 0 <= j < |frames[i]| ==> Target(screen, frames[i][j]) == target
    ensures Run(screen, s, frames).state.prev == IteratePoint(s.prev, target, HandCount(frames))
    decreases |frames|
  {
    if frames != [] {
      var first := FrameStep(screen, s, frames[0]);
      FrameIterates(screen, s, frames[0], target);
      RunIterates(screen, first.state, frames[1..], target);
      IterateCompose(s.prev.x, target.x, |frames[0]|, HandCount(frames[1..]));
      IterateCompose(s.prev.y, target.y, |frames[0]|, HandCount(frames[1..]));
    }
  }

  /** While the fingertip holds still, the loop's cursor approaches it: on
      each axis it reaches the target only if it started there, and after n
      hands at most 4/(4 + n) of the initial distance remains. */
  lemma RunConverges(screen: Screen, s: State, frames: seq<seq<Landmarks>>, target: Point)
    requires forall i, j :: 0 <= i < |frames| && 0 <= j < |frames[i]| ==> Target(screen, frames[i][j]) == target
    ensures var p := Run(screen, s, frames).state.prev;
            var n := HandCount(frames);
            && (p.x == target.x <==> s.prev.x == target.x)
            && (p.y == target.y <==> s.prev.y == target.y)
            && ConvergedAfter(s.prev.x, p.x, target.x, n)
            && ConvergedAfter(s.prev.y, p.y, target.y, n)
  {
    var p := Run(screen, s, frames).state.prev;
    var n := HandCount(frames);
    assert p == IteratePoint(s.prev, target, n) by {
      RunIterates(screen, s, frames, target);
    }
    IterateApproachesTarget(s.prev.x, target.x, n, p.x);
    IterateApproachesTarget(s.prev.y, target.y, n, p.y);
  }

  /** Fingertips that stay inside the image keep the cursor inside the
      closed screen box. */
  lemma {:induction false} FrameStaysInScreenBox(screen: Screen, s: State, hands: seq<Landmarks>)
    requires InScreenBox(screen, s.prev)
    requires forall j :: 0 <= j < |hands| ==> Normalized(hands[j][IndexTip])
    ensures InScreenBox(screen, FrameStep(screen, s, hands).state.prev)
    decreases |hands|
  {
    if hands != [] {
      var first := HandStep(screen, s, hands[0]);
      FrameStaysInScreenBox(screen, first.state, hands[1..]);
    }
  }

  /** With fingertips inside the image, a cursor that starts inside the closed
      screen box (the start position (0, 0) does) never leaves it. */
  lemma {:induction false} RunStaysInScreenBox(screen: Screen, s: State, frames: seq<seq<Landmarks>>)
    requires InScreenBox(screen, s.prev)
    requires forall i, j :: 0 <= i < |frames| && 0 <= j < |frames[i]| ==> Normalized(frames[i][j][IndexTip])
    ensures InScreenBox(screen, Run(screen, s, frames).state.prev)
    decreases |frames|
  {
    if frames != [] {
      FrameStaysInScreenBox(screen, s, frames[0]);
      RunStaysInScreenBox(screen, FrameStep(screen, s, frames[0]).state, frames[1..]);
    }
  }
}
