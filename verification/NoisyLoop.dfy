/**
 The same loop when its measurements are wrong: whatever the errors, none larger than `noise`,
 no clamp fires and the clock comes to stay within 15/8 of it.
 */
module NoisyLoop {
  import opened Numbers
  import opened Discipline
  import opened ClosedLoop

  function NoisyCycles(l: Loop, mu: real, n: nat, errors: nat -> real, root: real -> real): Loop {
    if n == 0 then l else MeasuredCycle(NoisyCycles(l, mu, n - 1, errors, root), mu, errors(n - 1), root)
  }

  ghost predicate NoWorseThan(errors: nat -> real, noise: real) {
    forall k: nat :: Abs(errors(k)) <= noise
  }

  /** The error of the last measurement. */
  function LastError(l: Loop): real {
    l.servo.lastOffset - l.X()
  }

  /** The phase rate less what the last measurement's error taught it. */
  function CleanRate(l: Loop, mu: real): real {
    l.G(mu) - LastError(l) / 16.0
  }

  /** A box around true time. Its two slanted sides nearly follow the loop's two modes, so that each
      shrinks by itself; `excess` is how far it still is from where the noise alone would hold it. */
  predicate Near(x: real, h: real, noise: real, excess: real) {
    && -7.0 / 4.0 * (noise + excess) <= x + 11.0 * h <= 7.0 / 4.0 * (noise + excess)
    && -6.0 / 5.0 * (noise + excess) <= x + 3.0 * h <= 6.0 / 5.0 * (noise + excess)
    && -15.0 / 8.0 * noise - 3.0 * excess <= x <= 15.0 / 8.0 * noise + 3.0 * excess
  }

  const FADE: real := 109.0 / 128.0

  /** One step of the loop in these terms, with v the error of the measurement it rests on. */
  lemma NearShrinks(x: real, h: real, v: real, x': real, h': real, noise: real, excess: real)
    requires Near(x, h, noise, excess) && excess >= 0.0 && -noise <= v <= noise
    requires x' == x / 2.0 - h - 9.0 / 16.0 * v && h' == h + v / 16.0 + x' / 16.0
    ensures Near(x', h', noise, FADE * excess)
  {
  }

  /** Near true time, with no clamp or threshold in reach. */
  ghost predicate Quiet(l: Loop, mu: real, noise: real, excess: real) {
    && Tuned(l, mu) && mu < FLL_INTERVAL
    && excess >= 0.0 && Abs(LastError(l)) <= noise
    && Near(l.X(), CleanRate(l, mu), noise, excess)
    && 3.0 * (noise + excess) <= STEP_THRESHOLD
    && Abs(l.plant.error) * mu + 15.0 / 8.0 * (noise + excess) <= MAX_FREQUENCY * mu
  }

  /** No correction called for from there reaches a clamp. */
  lemma NoisyRates(e: real, f: real, m: real, g: real, mu: real, reach: real)
    requires mu > 0.0 && Abs(e) * mu + reach <= MAX_FREQUENCY * mu
    requires g == (e + f) * mu + m / 16.0
    requires -reach <= g <= reach && -reach <= g + m / 2.0 <= reach
    ensures Abs(f + m / 16.0 / mu) <= MAX_FREQUENCY
    ensures Abs(f + m / 16.0 / mu + m / (2.0 * mu)) <= MAX_FREQUENCY
  {
    ScaledRates(e, f, m / 16.0, m, mu);
    RateBound(f + m / 16.0 / mu, g, e, mu, reach);
    RateBound(f + m / 16.0 / mu + m / (2.0 * mu), g + m / 2.0, e, mu, reach);
  }

  lemma Corrections(x: real, h: real, v: real, noise: real, excess: real)
    requires Near(x, h, noise, excess) && excess >= 0.0 && -noise <= v <= noise
    ensures var g, m, reach := h + v / 16.0, x + v, 15.0 / 8.0 * (noise + excess);
            && -reach <= g <= reach && -reach <= g + m / 2.0 <= reach
            && Abs(m) <= 3.0 * (noise + excess)
  {
  }

  /** One cycle on a measurement wrong by `error`: no clamp fires, and 109/128 of the excess is left. */
  lemma NoisyCycleIsQuiet(l: Loop, mu: real, noise: real, excess: real, error: real, root: real -> real)
    requires Quiet(l, mu, noise, excess) && Abs(error) <= noise
    ensures Quiet(MeasuredCycle(l, mu, error, root), mu, noise, FADE * excess)
  {
    hide MeasuredCycle, Loop.X, Loop.G, Near;
    var v, x := LastError(l), l.X() - l.servo.lastOffset / 2.0 - l.G(mu);
    var m := x + error;
    var g := l.G(mu) + m / 16.0;
    assert x == l.X() / 2.0 - CleanRate(l, mu) - 9.0 / 16.0 * v;
    NearShrinks(l.X(), CleanRate(l, mu), v, x, g - error / 16.0, noise, excess);
    Corrections(x, g - error / 16.0, error, noise, FADE * excess);
    QuietIsUnclamped(l, mu, m, g, noise + FADE * excess, noise + excess);
    NoisyLinearCycle(l, mu, error, m, root);
  }

  lemma QuietIsUnclamped(l: Loop, mu: real, m: real, g: real, level: real, before: real)
    requires 0.25 <= mu < FLL_INTERVAL && g == l.G(mu) + m / 16.0 && level <= before
    requires 3.0 * before <= STEP_THRESHOLD
    requires Abs(l.plant.error) * mu + 15.0 / 8.0 * before <= MAX_FREQUENCY * mu
    requires -15.0 / 8.0 * level <= g <= 15.0 / 8.0 * level && -15.0 / 8.0 * level <= g + m / 2.0 <= 15.0 / 8.0 * level
    requires Abs(m) <= 3.0 * level
    ensures var f, before := l.servo.frequency, l.servo.lastOffset;
            && Abs(m) <= STEP_THRESHOLD
            && Lesson(m, before, mu) == m / 16.0
            && Abs(f + Lesson(m, before, mu) / mu) <= MAX_FREQUENCY
            && Abs(f + Lesson(m, before, mu) / mu + m / (2.0 * mu)) <= MAX_FREQUENCY
  {
    hide Abs;
    NoisyRates(l.plant.error, l.servo.frequency, m, g, mu, 15.0 / 8.0 * level);
  }

  // ----- whole runs -----

  /** What is left of an excess after n cycles: (109/128)^n of it. */
  function Left(excess: real, n: nat): (left: real)
    ensures excess >= 0.0 ==> 0.0 <= left <= excess
  {
    if n == 0 then excess else FADE * Left(excess, n - 1)
  }

  /** Whatever the errors, in every cycle: the clock is within 15/8 of the largest of them, and of what is left
      of where it started; and the rate it is left at would take it 7/16 of both further in a cycle, at most. */
  lemma {:induction false} NoiseIsHeld(l: Loop, mu: real, noise: real, excess: real, n: nat,
                                       errors: nat -> real, root: real -> real)
    requires Quiet(l, mu, noise, excess) && NoWorseThan(errors, noise)
    ensures Quiet(NoisyCycles(l, mu, n, errors, root), mu, noise, Left(excess, n))
    ensures Abs(NoisyCycles(l, mu, n, errors, root).X()) <= 15.0 / 8.0 * noise + 3.0 * Left(excess, n)
    ensures Abs(NoisyCycles(l, mu, n, errors, root).G(mu)) <= 7.0 / 16.0 * (noise + Left(excess, n))
  {
    hide Quiet, MeasuredCycle, Loop.X, Loop.G;
    if n > 0 {
      NoiseIsHeld(l, mu, noise, excess, n - 1, errors, root);
      NoisyCycleIsQuiet(NoisyCycles(l, mu, n - 1, errors, root), mu, noise, Left(excess, n - 1), errors(n - 1), root);
    }
    QuietIsNear(NoisyCycles(l, mu, n, errors, root), mu, noise, Left(excess, n));
  }

  lemma QuietIsNear(l: Loop, mu: real, noise: real, excess: real)
    requires Quiet(l, mu, noise, excess)
    ensures noise >= 0.0 && excess >= 0.0
    ensures Abs(l.X()) <= 15.0 / 8.0 * noise + 3.0 * excess
    ensures Abs(l.G(mu)) <= 7.0 / 16.0 * (noise + excess)
  {
    hide Tuned, Loop.X, Loop.G;
  }

  lemma {:induction false} LeftVanishes(excess: real, n: nat)
    requires excess >= 0.0
    ensures Left(excess, n) * (6.0 + n as real) <= 6.0 * excess
  {
    if n > 0 {
      LeftVanishes(excess, n - 1);
      var p, m := Left(excess, n - 1), 6.0 + n as real;
      assert Left(excess, n) * m == p * (FADE * m);
      AtMost(p, FADE * m, m - 1.0);
    }
  }

  lemma AtMost(p: real, a: real, b: real)
    requires p >= 0.0 && a <= b
    ensures p * a <= p * b
  {
  }

  /** So from an explicit cycle on, the clock is within twice the worst error. */
  lemma SettlesWithinTwice(l: Loop, mu: real, noise: real, excess: real, n: nat,
                           errors: nat -> real, root: real -> real)
    requires Quiet(l, mu, noise, excess) && NoWorseThan(errors, noise) && noise * (6.0 + n as real) >= 144.0 * excess
    ensures Abs(NoisyCycles(l, mu, n, errors, root).X()) <= 2.0 * noise
  {
    hide Quiet, MeasuredCycle, NoisyCycles, NoWorseThan, Loop.X, Left;
    QuietIsNear(l, mu, noise, excess);
    NoiseIsHeld(l, mu, noise, excess, n, errors, root);
    LeftIsAnEighth(noise, excess, n);
  }

  lemma LeftIsAnEighth(noise: real, excess: real, n: nat)
    requires excess >= 0.0 && noise * (6.0 + n as real) >= 144.0 * excess
    ensures 3.0 * Left(excess, n) <= noise / 8.0
  {
    LeftVanishes(excess, n);
    hide *;
    AnEighth(Left(excess, n), 6.0 + n as real, noise, excess);
  }

  lemma AnEighth(left: real, m: real, noise: real, excess: real)
    requires m > 0.0 && left * m <= 6.0 * excess && noise * m >= 144.0 * excess
    ensures 3.0 * left <= noise / 8.0
  {
    SignOfScaled(noise / 24.0 - left, m);
  }

  // ----- a bad path -----

  /** A fresh start polled every 64 s, after its first measurement, wrong by `error`. */
  lemma NoisyStartIsQuiet(crystal: real, noise: real, error: real, root: real -> real)
    requires Abs(error) <= noise <= 0.005 && Abs(crystal) <= 0.00003
    ensures Quiet(MeasuredCycle(FreshStart(crystal), 64.0, error, root), 64.0, noise, 366.0 * Abs(crystal))
  {
    var l := MeasuredCycle(FreshStart(crystal), 64.0, error, root);
    assert l.X() == -64.0 * crystal && l.servo.lastOffset == l.X() + error && l.servo.frequency == 0.0;
  }

  lemma {:induction false} LeftFalls(excess: real, n: nat, k: nat)
    requires excess >= 0.0 && n <= k
    ensures Left(excess, k) <= Left(excess, n)
  {
    if n < k {
      LeftFalls(excess, n, k - 1);
    }
  }

  lemma LeftHalves(excess: real, n: nat)
    requires excess >= 0.0
    ensures Left(excess, n + 5) <= Left(excess, n) / 2.0
  {
    assert Left(excess, n + 2) == FADE * FADE * Left(excess, n);
    assert Left(excess, n + 4) == FADE * FADE * Left(excess, n + 2);
  }

  lemma ThirtyCycles(excess: real)
    requires excess >= 0.0
    ensures Left(excess, 30) <= excess / 64.0
  {
    LeftHalves(excess, 0);
    LeftHalves(excess, 5);
    LeftHalves(excess, 10);
    LeftHalves(excess, 15);
    LeftHalves(excess, 20);
    LeftHalves(excess, 25);
  }

  /** A bad path, for every sequence of errors: a crystal 30 parts per million off, and measurements
      up to five milliseconds wrong. After thirty polls the clock is within ten
      milliseconds, and the learned frequency within 36 parts per million of the one it needs, for good. */
  lemma BadPathIsSurvived(crystal: real, n: nat, errors: nat -> real, first: real, root: real -> real)
    requires Abs(crystal) <= 0.00003 && Abs(first) <= 0.005 && NoWorseThan(errors, 0.005) && n >= 30
    ensures var l := NoisyCycles(MeasuredCycle(FreshStart(crystal), 64.0, first, root), 64.0, n, errors, root);
            Abs(l.X()) <= 0.01 && Abs(l.G(64.0)) <= 64.0 * 0.000036
  {
    hide Quiet, MeasuredCycle, NoisyCycles, Loop.X, Loop.G, NoWorseThan;
    var excess := 366.0 * Abs(crystal);
    NoisyStartIsQuiet(crystal, 0.005, first, root);
    NoiseIsHeld(MeasuredCycle(FreshStart(crystal), 64.0, first, root), 64.0, 0.005, excess, n, errors, root);
    hide FreshStart, Left;
    LeftFalls(excess, 30, n);
    ThirtyCycles(excess);
  }
}
