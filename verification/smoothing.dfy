/**
 Position smoothing of the gesture mouse.

 A normalized fingertip coordinate is scaled to screen pixels and truncated
 to an integer; the cursor then moves only a fifth of the way from its
 previous position towards that target. Over the reals this is a linear
 contraction towards the target: it never overshoots, and every step keeps
 exactly four fifths of the remaining distance.
 */
module Smoothing {

  /** The damping factor (`smoothening = 5`). */
  const Smoothening: real := 5.0

  /** The share of the remaining distance a step keeps: 1 - 1/5. */
  const Retention: real := 0.8

  function Abs(x: real): real {
    if x < 0.0 then -x else x
  }

  /** `m` lies on the closed segment between `a` and `b`. */
  predicate Between(a: real, m: real, b: real) {
    (a <= m <= b) || (b <= m <= a)
  }

  /** The product of two non-negative reals is non-negative. */
  lemma MulNonNegative(a: real, b: real)
    requires 0.0 <= a && 0.0 <= b
    ensures 0.0 <= a * b
  {
  }

  /** Scaling by a non-negative size maps the unit interval into [0, size]. */
  lemma ScaledBounds(v: real, size: real)
    requires 0.0 <= size && 0.0 <= v <= 1.0
    ensures 0.0 <= v * size <= size
    ensures v < 1.0 && 0.0 < size ==> v * size < size
  {
  }

  /** Truncation toward zero of a real, as Python's `int()` does on a float:
      the whole number next to `x` on the side of zero. */
  function Truncate(x: real): (n: int)
    ensures 0.0 <= x ==> 0 <= n && n as real <= x < n as real + 1.0
    ensures x < 0.0 ==> n <= 0 && n as real - 1.0 < x <= n as real
  {
    if 0.0 <= x then x.Floor else -((-x).Floor)
  }

  /** Truncating a value in [0, size] stays in [0, size], and below `size`
      when the value was. */
  lemma TruncateWithin(x: real, size: nat)
    requires 0.0 <= x <= size as real
    ensures 0 <= Truncate(x) <= size
    ensures x < size as real ==> Truncate(x) < size
  {
  }

  /** A coordinate in the unit interval, scaled and truncated, is a pixel
      index in [0, size], below `size` unless the coordinate was 1. */
  lemma ScaleWithin(v: real, size: nat)
    ensures 0.0 <= v <= 1.0 ==> 0 <= Truncate(v * (size as real)) <= size
    ensures 0.0 <= v < 1.0 && 0 < size ==> Truncate(v * (size as real)) < size
  {
    if 0.0 <= v <= 1.0 {
      var x := v * (size as real);
      ScaledBounds(v, size as real);
      TruncateWithin(x, size);
    }
  }

  /** A normalized coordinate scaled to a screen dimension of `size` pixels
      and truncated to a whole pixel. */
  function ScaleToScreen(v: real, size: nat): (p: int)
    ensures 0.0 <= v <= 1.0 ==> 0 <= p <= size
    ensures 0.0 <= v < 1.0 && 0 < size ==> p < size
  {
    ScaleWithin(v, size);
    Truncate(v * (size as real))
  }

  /** One smoothing step on one axis: move a fifth of the way to `target`. */
  function Smooth(prev: real, target: real): (curr: real)
    // never overshoots: the new value lies between the old one and the target
    ensures Between(prev, curr, target)
    // it reaches the target only when it was already there
    ensures curr == target <==> prev == target
    // exactly four fifths of the distance to the target remain
    ensures Abs(curr - target) == Retention * Abs(prev - target)
  {
    prev + (target - prev) / Smoothening
  }

  /** A single outlier in the target moves the output by only a fifth of the
      jump: smoothing is 1/5-Lipschitz in the target. */
  lemma OutlierDamped(prev: real, t1: real, t2: real)
    ensures Abs(Smooth(prev, t1) - Smooth(prev, t2)) == Abs(t1 - t2) / Smoothening
  {
  }

  /** `k` consecutive smoothing steps towards the same target. */
  function Iterate(prev: real, target: real, k: nat): (curr: real)
    ensures Between(prev, curr, target)
    decreases k
  {
    if k == 0 then prev else Smooth(Iterate(prev, target, k - 1), target)
  }

  /** At most 4/(4 + n) of the distance from `prev` to `target` remains at `curr`. */
  predicate ConvergedAfter(prev: real, curr: real, target: real, n: nat) {
    Abs(curr - target) * (4.0 + n as real) <= 4.0 * Abs(prev - target)
  }

  /** The value `curr` reached after `n` steps towards a fixed target equals
      the target only if the start did, and keeps at most 4/(4 + n) of the
      initial distance. */
  lemma IterateApproachesTarget(prev: real, target: real, n: nat, curr: real)
    requires curr == Iterate(prev, target, n)
    ensures curr == target <==> prev == target
    ensures ConvergedAfter(prev, curr, target, n)
  {
    IterateApproaches(prev, target, n);
    IterateConverges(prev, target, n);
  }

  /** Smoothing once and then `k` more times is smoothing `k + 1` times. */
  lemma {:induction false} IterateShift(prev: real, target: real, k: nat)
    ensures Iterate(Smooth(prev, target), target, k) == Iterate(prev, target, k + 1)
    decreases k
  {
    if k > 0 {
      IterateShift(prev, target, k - 1);
    }
  }

  /** `a` steps followed by `b` steps towards the same target are `a + b` steps. */
  lemma {:induction false} IterateCompose(prev: real, target: real, a: nat, b: nat)
    ensures Iterate(Iterate(prev, target, a), target, b) == Iterate(prev, target, a + b)
    decreases b
  {
    if b > 0 {
      IterateCompose(prev, target, a, b - 1);
    }
  }

  /** `x` raised to the power `k`. */
  function Pow(x: real, k: nat): (r: real)
    ensures 0.0 <= x <= 1.0 ==> 0.0 <= r <= 1.0
    decreases k
  {
    if k == 0 then 1.0
    else
      var p := Pow(x, k - 1);
      assert 0.0 <= x <= 1.0 ==> 0.0 <= x * p <= 1.0 by {
        if 0.0 <= x <= 1.0 {
          MulNonNegative(x, p);
          MulNonNegative(1.0 - x, p);
        }
      }
      x * p
  }

  /** Closed form of repeated smoothing: after `k` steps the signed offset
      from the target is the initial offset scaled by (4/5)^k. */
  lemma {:induction false} IterateClosedForm(prev: real, target: real, k: nat)
    ensures Iterate(prev, target, k) - target == Pow(Retention, k) * (prev - target)
    decreases k
  {
    if k > 0 {
      IterateClosedForm(prev, target, k - 1);
    }
  }

  /** Repeated steps towards a fixed target never reach it unless they
      started there, and each step strictly shrinks the distance. */
  lemma {:induction false} IterateApproaches(prev: real, target: real, k: nat)
    ensures Iterate(prev, target, k) == target <==> prev == target
    ensures prev != target ==>
              Abs(Iterate(prev, target, k + 1) - target) < Abs(Iterate(prev, target, k) - target)
    decreases k
  {
    if k > 0 {
      IterateApproaches(prev, target, k - 1);
    }
  }

  /** (4/5)^k (4 + k) <= 4, a Bernoulli-style bound on the retained share. */
  lemma {:induction false} RetentionBound(k: nat)
    ensures Pow(Retention, k) * (4.0 + k as real) <= 4.0
    decreases k
  {
    if k > 0 {
      RetentionBound(k - 1);
      var p := Pow(Retention, k - 1);
      assert Pow(Retention, k) * (4.0 + k as real)
             == Retention * (p * (4.0 + (k - 1) as real)) + Retention * p;
    }
  }

  /** Repeated smoothing converges to the target: after `k` steps at most
      4/(4 + k) of the initial distance remains. */
  lemma IterateConverges(prev: real, target: real, k: nat)
    ensures Abs(Iterate(prev, target, k) - target) * (4.0 + k as real) <= 4.0 * Abs(prev - target)
  {
    IterateClosedForm(prev, target, k);
    RetentionBound(k);
    var p := Pow(Retention, k);
    var e := Abs(prev - target);
    assert Abs(Iterate(prev, target, k) - target) == p * e;
    assert p * e * (4.0 + k as real) == (p * (4.0 + k as real)) * e;
    assert (4.0 - p * (4.0 + k as real)) * e >= 0.0;
  }
}
