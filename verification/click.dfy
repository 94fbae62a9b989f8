/**
 The click-and-hold state machine of the gesture mouse.

 The only state is whether the (virtual) mouse button is held. A pinch
 distance below the press threshold while released presses the button; a
 distance above the release threshold while held releases it. Everything
 else, including the band between the two thresholds and both thresholds
 themselves, leaves the state alone: that band is the hysteresis that stops
 a noisy distance near one threshold from toggling the button every frame.
 */
module ClickMachine {

  /** The two button events the machine can emit. */
  datatype ButtonEvent = MouseDown | MouseUp

  datatype Option<+T> = None | Some(value: T)

  /** The two distances the machine compares against. */
  datatype Thresholds = Thresholds(press: real, release: real)

  /** CLICK_DISTANCE = 0.025 and RELEASE_DISTANCE = 0.045. */
  const Reference: Thresholds := Thresholds(0.025, 0.045)

  /** The new button state after one distance, and the event (if any) it emits. */
  datatype StepResult = StepResult(clicking: bool, event: Option<ButtonEvent>)

  /** The sequence of an optional event: empty or a singleton. */
  function Emitted(e: Option<ButtonEvent>): (s: seq<ButtonEvent>)
    ensures |s| <= 1
  {
    match e
    case None => []
    case Some(b) => [b]
  }

  /** One update of the button state with pinch distance `d`. */
  function Step(t: Thresholds, clicking: bool, d: real): (r: StepResult)
    // a press happens exactly when released and the distance is strictly below the press threshold
    ensures r.event == Some(MouseDown) <==> !clicking && d < t.press
    // a release happens exactly when held and the distance is strictly above the release threshold
    ensures r.event == Some(MouseUp) <==> clicking && d > t.release
    // an event is emitted exactly when the state changes, and it names the new state
    ensures r.event.Some? <==> r.clicking != clicking
    ensures r.event.Some? ==> (r.clicking <==> r.event.value == MouseDown)
  {
    if !clicking && d < t.press then StepResult(true, Some(MouseDown))
    else if clicking && d > t.release then StepResult(false, Some(MouseUp))
    else StepResult(clicking, None)
  }

  /** A distance in the closed band between the thresholds changes nothing,
      from either state. */
  lemma DeadBandIsSticky(t: Thresholds, clicking: bool, d: real)
    requires t.press <= d <= t.release
    ensures Step(t, clicking, d) == StepResult(clicking, None)
  {
  }

  /** The comparisons are strict: the press threshold itself does not press
      and the release threshold itself does not release. */
  lemma BoundariesDoNotSwitch()
    ensures Step(Reference, false, Reference.press) == StepResult(false, None)
    ensures Step(Reference, true, Reference.release) == StepResult(true, None)
    ensures Step(Reference, false, 0.0249) == StepResult(true, Some(MouseDown))
    ensures Step(Reference, true, 0.0451) == StepResult(false, Some(MouseUp))
  {
  }

  /** The outcome of feeding a sequence of distances: the final state and
      every event emitted, in order. */
  datatype RunResult = RunResult(clicking: bool, events: seq<ButtonEvent>)

  /** Feeds the distances `ds` one at a time, starting from `clicking`. */
  function Run(t: Thresholds, clicking: bool, ds: seq<real>): (r: RunResult)
    ensures |r.events| <= |ds|
    ensures r.events == [] ==> r.clicking == clicking
    decreases |ds|
  {
    if ds == [] then RunResult(clicking, [])
    else
      var s := Step(t, clicking, ds[0]);
      var rest := Run(t, s.clicking, ds[1..]);
      RunResult(rest.clicking, Emitted(s.event) + rest.events)
  }

  /** Running two sequences back to back is running their concatenation. */
  lemma {:induction false} RunAppend(t: Thresholds, clicking: bool, xs: seq<real>, ys: seq<real>)
    ensures var a := Run(t, clicking, xs);
            var b := Run(t, a.clicking, ys);
            Run(t, clicking, xs + ys) == RunResult(b.clicking, a.events + b.events)
    decreases |xs|
  {
    if xs == [] {
      assert xs + ys == ys;
    } else {
      assert (xs + ys)[0] == xs[0];
      assert (xs + ys)[1..] == xs[1..] + ys;
      var s := Step(t, clicking, xs[0]);
      RunAppend(t, s.clicking, xs[1..], ys);
      var a' := Run(t, s.clicking, xs[1..]);
      var b := Run(t, a'.clicking, ys);
      assert Emitted(s.event) + (a'.events + b.events) == (Emitted(s.event) + a'.events) + b.events;
    }
  }

  /** A run through distances that all lie in the band between the thresholds
      emits nothing and ends where it started. */
  lemma {:induction false} DeadBandRun(t: Thresholds, clicking: bool, ds: seq<real>)
    requires forall i :: 0 <= i < |ds| ==> t.press <= ds[i] <= t.release
    ensures Run(t, clicking, ds) == RunResult(clicking, [])
    decreases |ds|
  {
    if ds != [] {
      DeadBandIsSticky(t, clicking, ds[0]);
      DeadBandRun(t, clicking, ds[1..]);
    }
  }

  /** The event that must come next when the button is held (`clicking`) or not. */
  function Next(clicking: bool): ButtonEvent {
    if clicking then MouseUp else MouseDown
  }

  /** `events` strictly alternate, starting with the event that the state
      `clicking` admits. */
  predicate AlternatesFrom(clicking: bool, events: seq<ButtonEvent>)
    decreases |events|
  {
    events == [] || (events[0] == Next(clicking) && AlternatesFrom(!clicking, events[1..]))
  }

  /** The state reached after an alternating event sequence: flipped once per event. */
  function Flip(clicking: bool, n: nat): bool {
    if n % 2 == 0 then clicking else !clicking
  }

  /** A pinch hovering inside the band never clicks: 0.03, 0.035, 0.03, 0.04
      from the released state emit nothing. */
  lemma DeadZoneExample()
    ensures Run(Reference, false, [0.03, 0.035, 0.03, 0.04]) == RunResult(false, [])
  {
    DeadBandRun(Reference, false, [0.03, 0.035, 0.03, 0.04]);
  }

  /** Open, pinch, open: exactly one press and then one release. */
  lemma ClickRoundTripExample()
    ensures Run(Reference, false, [0.05, 0.02, 0.05]) == RunResult(false, [MouseDown, MouseUp])
  {
  }

  /** Any run emits events that alternate from its start state, and its final
      state is the start state flipped once per event. */
  lemma {:induction false} RunAlternates(t: Thresholds, clicking: bool, ds: seq<real>)
    ensures AlternatesFrom(clicking, Run(t, clicking, ds).events)
    ensures Run(t, clicking, ds).clicking == Flip(clicking, |Run(t, clicking, ds).events|)
    decreases |ds|
  {
    if ds != [] {
      var s := Step(t, clicking, ds[0]);
      RunAlternates(t, s.clicking, ds[1..]);
      var rest := Run(t, s.clicking, ds[1..]);
      if s.event.Some? {
        var evs := [s.event.value] + rest.events;
        assert s.event.value == Next(clicking);
        assert evs[0] == Next(clicking) && evs[1..] == rest.events;
        assert AlternatesFrom(clicking, evs);
      } else {
        assert Emitted(s.event) + rest.events == rest.events;
      }
    }
  }

  /** Number of occurrences of `e` in `events`. */
  function Count(events: seq<ButtonEvent>, e: ButtonEvent): (n: nat)
    ensures n <= |events|
    ensures n == 0 <==> forall i :: 0 <= i < |events| ==> events[i] != e
    decreases |events|
  {
    if events == [] then 0
    else (if events[0] == e then 1 else 0) + Count(events[1..], e)
  }

  /** 1 when the button is held, 0 when it is not. */
  function Level(clicking: bool): int {
    if clicking then 1 else 0
  }

  /** Along an alternating sequence, downs minus ups tracks the button level:
      the start level plus the difference is the end level. */
  lemma {:induction false} AlternationBalance(clicking: bool, events: seq<ButtonEvent>)
    requires AlternatesFrom(clicking, events)
    ensures Level(clicking) + Count(events, MouseDown) - Count(events, MouseUp)
            == Level(Flip(clicking, |events|))
    decreases |events|
  {
    if events != [] {
      AlternationBalance(!clicking, events[1..]);
    }
  }

  /** An alternating sequence written position by position: event i is the
      one admitted by the start state flipped i times. */
  lemma {:induction false} AlternationByIndex(clicking: bool, events: seq<ButtonEvent>)
    requires AlternatesFrom(clicking, events)
    ensures forall i :: 0 <= i < |events| ==> events[i] == Next(Flip(clicking, i))
    decreases |events|
  {
    if events != [] {
      AlternationByIndex(!clicking, events[1..]);
      forall i | 0 <= i < |events|
        ensures events[i] == Next(Flip(clicking, i))
      {
        if i > 0 {
          assert events[i] == events[1..][i - 1];
        }
      }
    }
  }

  /** Over any sequence of distances starting released, the events begin with a
      press and strictly alternate, downs minus ups is 0 or 1, and the button
      ends held exactly when it is 1. */
  lemma RunFromReleased(t: Thresholds, ds: seq<real>)
    ensures var r := Run(t, false, ds);
            && (forall i :: 0 <= i < |r.events| ==>
                  r.events[i] == (if i % 2 == 0 then MouseDown else MouseUp))
            && 0 <= Count(r.events, MouseDown) - Count(r.events, MouseUp) <= 1
            && (r.clicking <==> Count(r.events, MouseDown) - Count(r.events, MouseUp) == 1)
  {
    var r := Run(t, false, ds);
    RunAlternates(t, false, ds);
    AlternationBalance(false, r.events);
    AlternationByIndex(false, r.events);
  }

  /** Reference definition of the hysteresis: the button state after a run is
      decided by the most recent distance outside the band, pressed when it was
      below the press threshold and released when above the release threshold;
      with no such distance the start state persists. */
  function Settled(t: Thresholds, clicking: bool, ds: seq<real>): bool
    decreases |ds|
  {
    if ds == [] then clicking
    else
      var last := ds[|ds| - 1];
      if last < t.press then true
      else if last > t.release then false
      else Settled(t, clicking, ds[..|ds| - 1])
  }

  /** The machine computes the reference definition of hysteresis. */
  lemma {:induction false} RunIsSettled(t: Thresholds, clicking: bool, ds: seq<real>)
    requires t.press <= t.release
    ensures Run(t, clicking, ds).clicking == Settled(t, clicking, ds)
    decreases |ds|
  {
    if ds != [] {
      var init := ds[..|ds| - 1];
      var last := ds[|ds| - 1];
      assert ds == init + [last];
      RunIsSettled(t, clicking, init);
      RunAppend(t, clicking, init, [last]);
      var mid := Run(t, clicking, init).clicking;
      assert Run(t, mid, [last]).clicking == Step(t, mid, last).clicking by {
        assert [last][1..] == [];
      }
    }
  }

  /** For non-negative reals, squaring preserves strict order both ways. */
  lemma SquareStrictlyMonotone(a: real, b: real)
    requires 0.0 <= a && 0.0 <= b
    ensures a < b <==> a * a < b * b
  {
    assert b * b - a * a == (b - a) * (b + a);
    if a < b {
      var x, y := b - a, b + a;
      assert x > 0.0 && y > 0.0;
      assert x * y > 0.0;
    } else {
      var x, y := a - b, b + a;
      assert x >= 0.0 && y >= 0.0;
      assert x * y >= 0.0;
    }
  }

  /** The same thresholds, squared: comparing a squared distance against them. */
  function Squared(t: Thresholds): (q: Thresholds)
    requires 0.0 <= t.press && 0.0 <= t.release
    ensures 0.0 <= q.press && 0.0 <= q.release
    ensures t.press <= t.release ==> q.press <= q.release
    ensures t.press < t.release ==> q.press < q.release
    ensures 0.0 < t.press ==> 0.0 < q.press
  {
    SquareStrictlyMonotone(t.release, t.press);
    SquareStrictlyMonotone(t.press, t.release);
    SquareStrictlyMonotone(0.0, t.press);
    Thresholds(t.press * t.press, t.release * t.release)
  }

  /** Comparing the squared distance against squared thresholds makes exactly
      the decisions that comparing the distance against the thresholds makes. */
  lemma SquaredStepAgrees(t: Thresholds, clicking: bool, d: real)
    requires 0.0 <= t.press && 0.0 <= t.release && 0.0 <= d
    ensures Step(Squared(t), clicking, d * d) == Step(t, clicking, d)
  {
    SquareStrictlyMonotone(d, t.press);
    SquareStrictlyMonotone(t.release, d);
  }
}
