/**
 The discipline steering the simulated clock of its own tests: without noise in the measurements
 the loop contracts geometrically, stays clear of every clamp, and does not ring.
 */
module ClosedLoop {
  import opened Numbers
  import opened Discipline

  /** A clock gaining `error` seconds a second, with a rate correction added, reading `ahead` of true time. */
  datatype Plant = Plant(error: real, correction: real, ahead: real) {
    function Advance(seconds: real): Plant {
      this.(ahead := ahead + (error + correction) * seconds)
    }

    function Apply(a: Adjustment): Plant {
      match a
      case Rate(rate) => this.(correction := rate)
      case Step(seconds, rate) => this.(ahead := ahead + seconds, correction := rate)
      case Hold => this
      case Panic(_) => this
    }

    /** What must be added to make the clock true, which is what a measurement reports. */
    function Measured(): real { -ahead }
  }

  datatype Loop = Loop(plant: Plant, servo: Servo, now: real) {
    /** The offset last measured. */
    function X(): real { plant.Measured() }

    /** The phase the clock gains over an interval once the learned frequency is applied. */
    function G(mu: real): real { (plant.error + servo.frequency) * mu }

    function Energy(mu: real): real { EnergyOf(X(), G(mu)) }
  }

  function EnergyOf(x: real, g: real): real {
    x * x + 32.0 * (g * g)
  }

  /** The clock runs for an interval, is measured with an error of `noise`, and is corrected. */
  function MeasuredCycle(l: Loop, mu: real, noise: real, root: real -> real): Loop {
    var plant := l.plant.Advance(mu);
    var (servo, a) := Updated(l.servo, plant.Measured() + noise, l.now + mu, root);
    Loop(plant.Apply(a), servo, l.now + mu)
  }

  function Cycle(l: Loop, mu: real, root: real -> real): Loop {
    MeasuredCycle(l, mu, 0.0, root)
  }

  function Cycles(l: Loop, mu: real, n: nat, root: real -> real): Loop {
    if n == 0 then l else Cycle(Cycles(l, mu, n - 1, root), mu, root)
  }

  /** The loop has just taken an unclamped correction, tuned for the interval mu. */
  ghost predicate Tuned(l: Loop, mu: real) {
    && mu >= 0.25
    && l.servo.state != Startup
    && l.servo.lastUpdate == Some(l.now)
    && l.plant.correction == l.servo.frequency + l.servo.lastOffset / (2.0 * mu)
  }

  /** And what it last measured was the truth. */
  ghost predicate Regular(l: Loop, mu: real) {
    Tuned(l, mu) && l.servo.lastOffset == l.X()
  }

  /** Where no clamp or threshold can fire: the energy is within r squared, and the crystal's
      error leaves room for the corrections r can call for. */
  ghost predicate Calm(l: Loop, mu: real, r: real) {
    && 0.0 <= r <= STEP_THRESHOLD
    && l.Energy(mu) <= r * r
    && Abs(l.plant.error) * mu + 11.0 / 16.0 * r <= MAX_FREQUENCY * mu
  }

  // ----- one cycle -----

  /** What a measurement teaches the frequency, as phase over mu: a sixteenth of the offset and, from the
      frequency-locked interval on, a quarter of how far the offset moved. */
  function Lesson(x: real, before: real, mu: real): real {
    x / 16.0 + if mu >= FLL_INTERVAL then (x - before) / 4.0 else 0.0
  }

  /** How much of the energy at most survives a cycle. */
  function Decay(mu: real): real {
    if mu >= FLL_INTERVAL then 63.0 / 64.0 else 15.0 / 16.0
  }

  /** The step of the energy, as algebra: x' = x/2 - g and g' = g + the lesson of x'. */
  lemma EnergyShrinks(x: real, g: real, x': real, g': real, mu: real)
    requires x' == x / 2.0 - g && g' == g + Lesson(x', x, mu)
    ensures x' * x' + 32.0 * (g' * g') <= Decay(mu) * (x * x + 32.0 * (g * g))
  {
    if mu >= FLL_INTERVAL {
      var a := x + 164.0 / 29.0 * g;
      assert 63.0 / 64.0 * (x * x + 32.0 * (g * g)) - (x' * x' + 32.0 * (g' * g'))
             == 29.0 / 64.0 * (a * a) + 205.0 / 232.0 * (g * g);
    } else {
      var a := x - 2.0 / 3.0 * g;
      assert 15.0 / 16.0 * (x * x + 32.0 * (g * g)) - (x' * x' + 32.0 * (g' * g'))
             == 21.0 / 32.0 * (a * a) + 7.0 / 12.0 * (g * g);
    }
  }

  lemma SquareGrows(a: real, b: real)
    requires a > b >= 0.0
    ensures a * a > b * b
  {
    assert a * a - b * b == (a - b) * (a + b);
    ProductIsPositive(a - b, a + b, (a - b) * (a + b));
  }

  lemma ProductIsPositive(a: real, b: real, c: real)
    requires a > 0.0 && b > 0.0 && c == a * b
    ensures c > 0.0
  {
  }

  lemma RootBound(a: real, b: real)
    requires b >= 0.0 && a * a <= b * b
    ensures -b <= a <= b
  {
    if a > b {
      SquareGrows(a, b);
    } else if -a > b {
      SquareGrows(-a, b);
    }
  }

  lemma EnergyBounds(x: real, g: real, r: real)
    requires r >= 0.0 && x * x + 32.0 * (g * g) <= r * r
    ensures -r <= x <= r && -3.0 / 16.0 * r <= g <= 3.0 / 16.0 * r
  {
    assert g * g >= 0.0 && x * x >= 0.0;
    RootBound(x, r);
    var b := 3.0 / 16.0 * r;
    assert b * b == 9.0 / 256.0 * (r * r);
    RootBound(g, b);
  }

  /** Where a tuned loop takes the clock. */
  lemma NextOffset(l: Loop, mu: real)
    requires Tuned(l, mu)
    ensures l.plant.Advance(mu).Measured() == l.X() - l.servo.lastOffset / 2.0 - l.G(mu)
  {
    var f, e, h := l.servo.frequency, l.plant.error, l.servo.lastOffset / (2.0 * mu);
    Quotients(l.servo.lastOffset, mu);
    assert (e + (f + h)) * mu == (e + f) * mu + h * mu;
  }

  lemma UnderScale(x: real, bound: real, mu: real)
    requires mu > 0.0 && -(bound * mu) <= x * mu <= bound * mu
    ensures -bound <= x <= bound
  {
    SignOfScaled(bound - x, mu);
    SignOfScaled(x + bound, mu);
  }

  lemma SignOfScaled(x: real, mu: real)
    requires mu > 0.0 && x * mu >= 0.0
    ensures x >= 0.0
  {
  }

  /** What the discipline answers to a small offset that no clamp touches. */
  lemma Unclamped(s: Servo, x: real, now: real, mu: real, root: real -> real)
    requires mu >= 0.25 && s.state != Startup && s.lastUpdate == Some(now - mu)
    requires Abs(x) <= STEP_THRESHOLD
    requires Abs(s.frequency + Lesson(x, s.lastOffset, mu) / mu) <= MAX_FREQUENCY
    requires Abs(s.frequency + Lesson(x, s.lastOffset, mu) / mu + x / (2.0 * mu)) <= MAX_FREQUENCY
    ensures var (s', a) := Updated(s, x, now, root);
            && s'.frequency == s.frequency + Lesson(x, s.lastOffset, mu) / mu
            && a == Rate(s'.frequency + x / (2.0 * mu))
            && s'.state != Startup && s'.lastUpdate == Some(now) && s'.lastOffset == x
  {
    hide LearnedFrequency, LoopJitter, Lesson;
    Gains(s.frequency, x, s.lastOffset, mu);
  }

  /** In general: mu seconds on, the frequency learns a sixteenth of the offset over mu and, from 2048 s, a quarter
      of the rate at which the offset moved; half the offset over mu is added for the interval to come. */
  lemma LessonExactly(s: Servo, x: real, mu: real, root: real -> real)
    requires s.state != Startup && s.lastUpdate.Some? && -0.128 <= x <= 0.128 && mu >= 0.25
    ensures var (s', a) := Updated(s, x, s.lastUpdate.value + mu, root);
            var lesson := x / 16.0 + if mu >= 2048.0 then (x - s.lastOffset) / 4.0 else 0.0;
            && s'.frequency == Limited(s.frequency + lesson / mu)
            && s'.slew == x / (2.0 * mu) && a == Rate(Limited(s'.frequency + s'.slew))
  {
    hide LearnedFrequency, LoopJitter;
    Gains(s.frequency, x, s.lastOffset, mu);
  }

  lemma Gains(frequency: real, x: real, before: real, mu: real)
    requires mu > 0.0
    ensures LearnedFrequency(frequency, x, before, mu, 4.0 * mu) == frequency + Lesson(x, before, mu) / mu
    ensures 2.0 * x / (4.0 * mu) == x / (2.0 * mu)
  {
    var d, q, h := (4.0 * mu) * (4.0 * mu), x / (16.0 * mu), x / (2.0 * mu);
    Quotients(x, mu);
    ProductIsPositive(4.0 * mu, 4.0 * mu, d);
    assert q * d == x * mu by {
      QuarterSquared(q, x, mu);
    }
    DivideBack(x * mu, d, q);
    DivideBack(2.0 * x, 4.0 * mu, h);
    DivideBack(x / 16.0, mu, q);
    SumOverMu(x / 16.0, (x - before) / 4.0, mu);
    QuarterLater(x - before, mu);
  }

  lemma SumOverMu(a: real, b: real, mu: real)
    requires mu > 0.0
    ensures (a + b) / mu == a / mu + b / mu
  {
    var p, q := a / mu, b / mu;
    assert p * mu == a && q * mu == b;
    assert (p + q) * mu == p * mu + q * mu;
    DivideBack(a + b, mu, p + q);
  }

  lemma QuarterLater(a: real, mu: real)
    requires mu > 0.0
    ensures a / mu / 4.0 == a / 4.0 / mu
  {
    var q := a / mu;
    assert q * mu == a;
    assert q / 4.0 * mu == q * mu / 4.0;
    DivideBack(a / 4.0, mu, q / 4.0);
  }

  lemma QuarterSquared(q: real, x: real, mu: real)
    requires q * (16.0 * mu) == x
    ensures q * ((4.0 * mu) * (4.0 * mu)) == x * mu
  {
    SameTimes(q * (16.0 * mu), x, mu);
  }

  lemma SameTimes(a: real, b: real, m: real)
    requires a == b
    ensures a * m == b * m
  {
  }

  lemma Quotients(x: real, mu: real)
    requires mu > 0.0
    ensures x / (16.0 * mu) * (16.0 * mu) == x
    ensures x / (2.0 * mu) * (2.0 * mu) == x
  {
  }

  lemma DivideBack(a: real, b: real, q: real)
    requires b != 0.0 && q * b == a
    ensures a / b == q
  {
  }

  lemma AbsScale(e: real, mu: real)
    requires mu > 0.0
    ensures -(Abs(e) * mu) <= e * mu <= Abs(e) * mu
  {
  }

  /** The corrections of one cycle in units of phase over mu. */
  lemma ScaledRates(e: real, f: real, k: real, x: real, mu: real)
    requires mu > 0.0
    ensures (f + k / mu) * mu == (e + f) * mu + k - e * mu
    ensures (e + (f + k / mu)) * mu == (e + f) * mu + k
    ensures (f + k / mu + x / (2.0 * mu)) * mu == (e + f) * mu + k - e * mu + x / 2.0
  {
    Quotients(x, mu);
    var q, h := k / mu, x / (2.0 * mu);
    assert q * mu == k && h * mu == x / 2.0;
    assert (f + q) * mu == f * mu + q * mu && (e + f) * mu == e * mu + f * mu;
    assert (f + q + h) * mu == (f + q) * mu + h * mu;
    assert (e + (f + q)) * mu == e * mu + (f + q) * mu;
  }

  lemma RateBound(w: real, p: real, e: real, mu: real, reach: real)
    requires mu > 0.0 && w * mu == p - e * mu && -reach <= p <= reach
    requires Abs(e) * mu + reach <= MAX_FREQUENCY * mu
    ensures -MAX_FREQUENCY <= w <= MAX_FREQUENCY
  {
    AbsScale(e, mu);
    UnderScale(w, MAX_FREQUENCY, mu);
  }

  /** No correction called for inside the calm region reaches a clamp. */
  lemma RatesStayCalm(e: real, f: real, k: real, x: real, mu: real, r: real)
    requires mu > 0.0 && r >= 0.0
    requires Abs(e) * mu + 11.0 / 16.0 * r <= MAX_FREQUENCY * mu
    requires -r <= x <= r && -3.0 / 16.0 * r <= (e + f) * mu + k <= 3.0 / 16.0 * r
    ensures Abs(f + k / mu) <= MAX_FREQUENCY
    ensures Abs(f + k / mu + x / (2.0 * mu)) <= MAX_FREQUENCY
  {
    ScaledRates(e, f, k, x, mu);
    var p := (e + f) * mu + k;
    RateBound(f + k / mu, p, e, mu, 11.0 / 16.0 * r);
    RateBound(f + k / mu + x / (2.0 * mu), p + x / 2.0, e, mu, 11.0 / 16.0 * r);
  }

  /** What one cycle does to a tuned loop that no clamp touches, x being what it measures. */
  lemma NoisyLinearCycle(l: Loop, mu: real, noise: real, x: real, root: real -> real)
    requires Tuned(l, mu) && x == l.X() - l.servo.lastOffset / 2.0 - l.G(mu) + noise
    requires var f, m := l.servo.frequency, l.servo.lastOffset;
             && Abs(x) <= STEP_THRESHOLD
             && Abs(f + Lesson(x, m, mu) / mu) <= MAX_FREQUENCY
             && Abs(f + Lesson(x, m, mu) / mu + x / (2.0 * mu)) <= MAX_FREQUENCY
    ensures var l' := MeasuredCycle(l, mu, noise, root);
            && Tuned(l', mu)
            && l'.X() == x - noise && l'.servo.lastOffset == x
            && l'.G(mu) == l.G(mu) + Lesson(x, l.servo.lastOffset, mu)
            && l'.plant.error == l.plant.error
  {
    hide Updated, Lesson;
    NextOffset(l, mu);
    Unclamped(l.servo, x, l.now + mu, mu, root);
    ScaledRates(l.plant.error, l.servo.frequency, Lesson(x, l.servo.lastOffset, mu), x, mu);
  }

  /** And to a loop that measures the truth. */
  lemma LinearCycle(l: Loop, mu: real, root: real -> real)
    requires Regular(l, mu)
    requires var f, x := l.servo.frequency, l.X() / 2.0 - l.G(mu);
             && Abs(x) <= STEP_THRESHOLD
             && Abs(f + Lesson(x, l.X(), mu) / mu) <= MAX_FREQUENCY
             && Abs(f + Lesson(x, l.X(), mu) / mu + x / (2.0 * mu)) <= MAX_FREQUENCY
    ensures var l' := Cycle(l, mu, root);
            && Regular(l', mu)
            && l'.X() == l.X() / 2.0 - l.G(mu)
            && l'.G(mu) == l.G(mu) + Lesson(l'.X(), l.X(), mu)
            && l'.plant.error == l.plant.error
  {
    hide MeasuredCycle, Lesson;
    NoisyLinearCycle(l, mu, 0.0, l.X() / 2.0 - l.G(mu), root);
  }

  /** One cycle in the calm region: linear, contracting, and calm again. */
  lemma CalmCycle(l: Loop, mu: real, r: real, root: real -> real)
    requires Regular(l, mu) && Calm(l, mu, r)
    ensures var l' := Cycle(l, mu, root);
            && Regular(l', mu) && Calm(l', mu, r)
            && l'.X() == l.X() / 2.0 - l.G(mu)
            && l'.G(mu) == l.G(mu) + Lesson(l'.X(), l.X(), mu)
            && l'.Energy(mu) <= Decay(mu) * l.Energy(mu)
  {
    hide Cycle, Loop.X, Loop.G, EnergyOf, Lesson, Decay;
    var x := l.X() / 2.0 - l.G(mu);
    NextEnergy(l.X(), l.G(mu), x, l.G(mu) + Lesson(x, l.X(), mu), mu, r);
    NextIsUnclamped(l, mu, r, x);
    LinearCycle(l, mu, root);
  }

  lemma NextEnergy(x: real, g: real, x': real, g': real, mu: real, r: real)
    requires x' == x / 2.0 - g && g' == g + Lesson(x', x, mu) && r >= 0.0 && EnergyOf(x, g) <= r * r
    ensures EnergyOf(x', g') <= Decay(mu) * EnergyOf(x, g) <= r * r
    ensures -r <= x' <= r && -3.0 / 16.0 * r <= g' <= 3.0 / 16.0 * r
  {
    hide Lesson;
    EnergyShrinks(x, g, x', g', mu);
    assert x * x >= 0.0 && g * g >= 0.0;
    EnergyBounds(x', g', r);
  }

  lemma NextIsUnclamped(l: Loop, mu: real, r: real, x: real)
    requires Regular(l, mu) && 0.0 <= r <= STEP_THRESHOLD
    requires Abs(l.plant.error) * mu + 11.0 / 16.0 * r <= MAX_FREQUENCY * mu
    requires -r <= x <= r && -3.0 / 16.0 * r <= l.G(mu) + Lesson(x, l.X(), mu) <= 3.0 / 16.0 * r
    ensures Abs(x) <= STEP_THRESHOLD
    ensures Abs(l.servo.frequency + Lesson(x, l.X(), mu) / mu) <= MAX_FREQUENCY
    ensures Abs(l.servo.frequency + Lesson(x, l.X(), mu) / mu + x / (2.0 * mu)) <= MAX_FREQUENCY
  {
    hide Lesson;
    RatesStayCalm(l.plant.error, l.servo.frequency, Lesson(x, l.X(), mu), x, mu, r);
  }

  lemma EnergyNonNegative(l: Loop, mu: real)
    ensures l.Energy(mu) >= 0.0
  {
    var x, g := l.X(), l.G(mu);
    assert x * x >= 0.0 && g * g >= 0.0;
  }

  // ----- whole runs -----

  function Shrink(mu: real, n: nat): (p: real)
    ensures p > 0.0
  {
    if n == 0 then 1.0 else Decay(mu) * Shrink(mu, n - 1)
  }

  /** Geometric convergence, for every constant interval: started calm, the loop stays calm, and every
      cycle takes a sixteenth of the energy, or a sixty-fourth where the frequency-locked term joins in. */
  lemma {:induction false} Converges(l: Loop, mu: real, r: real, n: nat, root: real -> real)
    requires Regular(l, mu) && Calm(l, mu, r)
    ensures Regular(Cycles(l, mu, n, root), mu) && Calm(Cycles(l, mu, n, root), mu, r)
    ensures Cycles(l, mu, n, root).Energy(mu) <= Shrink(mu, n) * l.Energy(mu)
  {
    hide Regular, Calm, Cycle, Loop.Energy, Lesson;
    if n > 0 {
      Converges(l, mu, r, n - 1, root);
      CalmCycle(Cycles(l, mu, n - 1, root), mu, r, root);
      Compound(Cycles(l, mu, n, root).Energy(mu), Cycles(l, mu, n - 1, root).Energy(mu),
               Decay(mu), Shrink(mu, n - 1), l.Energy(mu));
    }
  }

  lemma Compound(after: real, before: real, decay: real, p: real, start: real)
    requires after <= decay * before && before <= p * start && (decay == 15.0 / 16.0 || decay == 63.0 / 64.0)
    ensures after <= decay * p * start
  {
  }

  lemma {:induction false} ShrinkVanishes(mu: real, n: nat)
    ensures Shrink(mu, n) * (63.0 + n as real) <= 63.0
  {
    if n > 0 {
      ShrinkVanishes(mu, n - 1);
      var d, p, m := Decay(mu), Shrink(mu, n - 1), n as real;
      assert d * (63.0 + m) <= 63.0 + (m - 1.0);
      assert Shrink(mu, n) * (63.0 + m) == p * (d * (63.0 + m));
      Scale(p, d * (63.0 + m), 63.0 + (m - 1.0));
    }
  }

  lemma Scale(p: real, a: real, b: real)
    requires p > 0.0 && a <= b
    ensures p * a <= p * b
  {
  }

  /** So the offset goes to zero: it is below any bound from an explicit cycle on. */
  lemma OffsetVanishes(l: Loop, mu: real, r: real, n: nat, bound: real, root: real -> real)
    requires Regular(l, mu) && Calm(l, mu, r) && bound > 0.0
    requires n as real * (bound * bound) >= 63.0 * l.Energy(mu)
    ensures Abs(Cycles(l, mu, n, root).X()) <= bound
  {
    hide Regular, Calm, Cycle, Cycles, Loop.Energy, Shrink;
    Converges(l, mu, r, n, root);
    ShrinkVanishes(mu, n);
    EnergyNonNegative(l, mu);
    var b := bound * bound;
    ProductIsPositive(bound, bound, b);
    VanishingProduct(Shrink(mu, n), l.Energy(mu), n as real, b);
    EnergyCoversOffset(Cycles(l, mu, n, root), mu, bound);
  }

  lemma EnergyCoversOffset(l: Loop, mu: real, bound: real)
    requires bound >= 0.0 && l.Energy(mu) <= bound * bound
    ensures -bound <= l.X() <= bound
  {
    var x, g := l.X(), l.G(mu);
    assert g * g >= 0.0;
    RootBound(x, bound);
  }

  lemma VanishingProduct(p: real, v: real, m: real, b: real)
    requires p > 0.0 && v >= 0.0 && m >= 0.0 && b > 0.0
    requires p * (63.0 + m) <= 63.0 && 63.0 * v <= m * b
    ensures p * v <= b
  {
    Scale(p, 63.0 * v, m * b);
    assert p * (m * b) == p * m * b;
    assert p * m <= 63.0;
    Scale(b, p * m, 63.0);
  }

  // ----- no ringing -----

  /** What two measurements make of the next. */
  function Following(before: real, x: real, mu: real): real {
    if mu >= FLL_INTERVAL then 19.0 / 16.0 * x - 1.0 / 4.0 * before else 23.0 / 16.0 * x - 1.0 / 2.0 * before
  }

  ghost predicate Recurs(x: nat -> real, mu: real) {
    forall n: nat :: x(n + 2) == Following(x(n), x(n + 1), mu)
  }

  /** An offset as seen from one side of zero. */
  function Seen(above: bool, x: real): real {
    if above then x else -x
  }

  /** Once an offset is at least three quarters of one of the same sign before it, it never leaves that side. */
  lemma {:induction false} ConeIsInvariant(x: nat -> real, mu: real, above: bool, n: nat, k: nat)
    requires Recurs(x, mu) && n <= k
    requires Seen(above, x(n)) >= 0.0 && Seen(above, x(n + 1)) >= 3.0 / 4.0 * Seen(above, x(n))
    ensures Seen(above, x(k)) >= 0.0 && Seen(above, x(k + 1)) >= 3.0 / 4.0 * Seen(above, x(k))
  {
    if n < k {
      ConeIsInvariant(x, mu, above, n, k - 1);
      assert x((k - 1) + 2) == Following(x(k - 1), x((k - 1) + 1), mu);
    }
  }

  lemma FirstCrossing(x: nat -> real, above: bool, i: nat, j: nat) returns (p: nat)
    requires i < j && Seen(above, x(i)) > 0.0 && Seen(above, x(j)) <= 0.0
    ensures i <= p < j && Seen(above, x(p)) > 0.0 && Seen(above, x(p + 1)) <= 0.0
    decreases j - i
  {
    if Seen(above, x(i + 1)) <= 0.0 {
      p := i;
    } else {
      p := FirstCrossing(x, above, i + 1, j);
    }
  }

  /** At most one change of sign in an unending run: having left one side, the offset never returns to it. */
  lemma OneSignChange(x: nat -> real, mu: real, above: bool, i: nat, j: nat, k: nat)
    requires Recurs(x, mu) && i < j <= k
    requires Seen(above, x(i)) > 0.0 && Seen(above, x(j)) <= 0.0
    ensures Seen(above, x(k)) <= 0.0
  {
    var p := FirstCrossing(x, above, i, j);
    assert x(p + 2) == Following(x(p), x(p + 1), mu);
    ConeIsInvariant(x, mu, !above, p + 1, k);
  }

  function Offsets(l: Loop, mu: real, root: real -> real): nat -> real {
    (n: nat) => Cycles(l, mu, n, root).X()
  }

  lemma TwoCycles(l: Loop, mu: real, r: real, root: real -> real)
    requires Regular(l, mu) && Calm(l, mu, r)
    ensures Cycle(Cycle(l, mu, root), mu, root).X() == Following(l.X(), Cycle(l, mu, root).X(), mu)
  {
    hide Regular, Calm, Cycle, Loop.Energy, Decay, Loop.X, Loop.G;
    CalmCycle(l, mu, r, root);
    CalmCycle(Cycle(l, mu, root), mu, r, root);
  }

  lemma CalmRecurs(l: Loop, mu: real, r: real, root: real -> real)
    requires Regular(l, mu) && Calm(l, mu, r)
    ensures Recurs(Offsets(l, mu, root), mu)
  {
    forall n: nat
      ensures Offsets(l, mu, root)(n + 2)
              == Following(Offsets(l, mu, root)(n), Offsets(l, mu, root)(n + 1), mu)
    {
      hide Regular, Calm, Cycle, Loop.Energy, Loop.X, Following, Shrink;
      Converges(l, mu, r, n, root);
      TwoCycles(Cycles(l, mu, n, root), mu, r, root);
    }
  }

  /** The loop does not ring: from a calm start the measured offset changes sign at most once, ever. */
  lemma DoesNotRing(l: Loop, mu: real, r: real, i: nat, j: nat, k: nat, above: bool, root: real -> real)
    requires Regular(l, mu) && Calm(l, mu, r) && i < j <= k
    requires Seen(above, Cycles(l, mu, i, root).X()) > 0.0 && Seen(above, Cycles(l, mu, j, root).X()) <= 0.0
    ensures Seen(above, Cycles(l, mu, k, root).X()) <= 0.0
  {
    CalmRecurs(l, mu, r, root);
    OneSignChange(Offsets(l, mu, root), mu, above, i, j, k);
  }

  // ----- from a fresh start -----

  /** On the way from a fresh start, seen from the side of zero the clock's error puts the offset on: the offset is
      on that side, and the phase rate is on the other, by at least a third of the offset, at most what the crystal
      began with, and short of half the offset by at most two sevenths of that. */
  ghost predicate Approaching(l: Loop, mu: real) {
    var above, z := l.plant.error < 0.0, Abs(l.plant.error) * mu;
    var x, g := Seen(above, l.X()), Seen(above, l.G(mu));
    && mu < FLL_INTERVAL
    && Abs(l.plant.error) <= 7.0 / 18000.0 && 18.0 / 7.0 * z <= STEP_THRESHOLD
    && 0.0 <= x && -z <= g <= -x / 3.0
    && g + x / 2.0 <= 2.0 / 7.0 * z
  }

  /** The region, as algebra, is kept. */
  lemma ApproachStep(x: real, g: real, x': real, g': real, z: real)
    requires x' == x / 2.0 - g && g' == g + x' / 16.0
    requires 0.0 <= x && -z <= g <= -x / 3.0 && g + x / 2.0 <= 2.0 / 7.0 * z
    ensures 0.0 <= x' <= 18.0 / 7.0 * z && -z <= g' <= -x' / 3.0 && g' + x' / 2.0 <= 2.0 / 7.0 * z
    ensures g <= g' <= 0.0
  {
  }

  /** One cycle on the way: no clamp fires, a sixteenth of the energy goes, the offset stays on its side of zero,
      and the learned frequency moves towards the one that cancels the crystal's error without passing it. */
  lemma ApproachingCycle(l: Loop, mu: real, root: real -> real)
    requires Regular(l, mu) && Approaching(l, mu)
    ensures var l', above := Cycle(l, mu, root), l.plant.error < 0.0;
            && Regular(l', mu) && Approaching(l', mu) && l'.plant.error == l.plant.error
            && l'.Energy(mu) <= Decay(mu) * l.Energy(mu)
            && Seen(above, l.G(mu)) <= Seen(above, l'.G(mu)) <= 0.0
  {
    hide Cycle, Loop.Energy, Loop.X, Loop.G, Seen;
    var x := l.X() / 2.0 - l.G(mu);
    var g := l.G(mu) + Lesson(x, l.X(), mu);
    ApproachNext(l, mu, x, g);
    ApproachIsUnclamped(l, mu, x, g);
    LinearCycle(l, mu, root);
    var l' := Cycle(l, mu, root);
    EnergyDecays(l, l', mu);
  }

  lemma ApproachNext(l: Loop, mu: real, x: real, g: real)
    requires mu >= 0.25 && Approaching(l, mu)
    requires x == l.X() / 2.0 - l.G(mu) && g == l.G(mu) + Lesson(x, l.X(), mu)
    ensures var above, z := l.plant.error < 0.0, Abs(l.plant.error) * mu;
            && Abs(x) <= STEP_THRESHOLD
            && 0.0 <= Seen(above, x) && -z <= Seen(above, g) <= -Seen(above, x) / 3.0
            && Seen(above, g) + Seen(above, x) / 2.0 <= 2.0 / 7.0 * z
            && Seen(above, l.G(mu)) <= Seen(above, g) <= 0.0
  {
    hide Loop.X, Loop.G;
    var above, z := l.plant.error < 0.0, Abs(l.plant.error) * mu;
    ApproachStep(Seen(above, l.X()), Seen(above, l.G(mu)), Seen(above, x), Seen(above, g), z);
  }

  lemma ApproachIsUnclamped(l: Loop, mu: real, x: real, g: real)
    requires mu >= 0.25 && Approaching(l, mu)
    requires g == l.G(mu) + Lesson(x, l.X(), mu)
    requires 0.0 <= Seen(l.plant.error < 0.0, x)
    requires -(Abs(l.plant.error) * mu) <= Seen(l.plant.error < 0.0, g) <= 0.0
    requires Seen(l.plant.error < 0.0, g) + Seen(l.plant.error < 0.0, x) / 2.0 <= 2.0 / 7.0 * (Abs(l.plant.error) * mu)
    ensures Abs(l.servo.frequency + Lesson(x, l.X(), mu) / mu) <= MAX_FREQUENCY
    ensures Abs(l.servo.frequency + Lesson(x, l.X(), mu) / mu + x / (2.0 * mu)) <= MAX_FREQUENCY
  {
    hide Lesson, Seen, Abs, Loop.X;
    ApproachRates(l.plant.error, l.servo.frequency, Lesson(x, l.X(), mu), x, g, mu);
  }

  lemma EnergyDecays(l: Loop, l': Loop, mu: real)
    requires l'.X() == l.X() / 2.0 - l.G(mu) && l'.G(mu) == l.G(mu) + Lesson(l'.X(), l.X(), mu)
    ensures l'.Energy(mu) <= Decay(mu) * l.Energy(mu)
  {
    hide Loop.X, Loop.G, Lesson, Decay;
    EnergyShrinks(l.X(), l.G(mu), l'.X(), l'.G(mu), mu);
  }

  lemma ApproachRates(e: real, f: real, k: real, x: real, g: real, mu: real)
    requires mu > 0.0 && Abs(e) <= 7.0 / 18000.0 && g == (e + f) * mu + k
    requires 0.0 <= Seen(e < 0.0, x) && -(Abs(e) * mu) <= Seen(e < 0.0, g) <= 0.0
    requires Seen(e < 0.0, g) + Seen(e < 0.0, x) / 2.0 <= 2.0 / 7.0 * (Abs(e) * mu)
    ensures Abs(f + k / mu) <= MAX_FREQUENCY
    ensures Abs(f + k / mu + x / (2.0 * mu)) <= MAX_FREQUENCY
  {
    ScaledRates(e, f, k, x, mu);
    var z, drift := Abs(e) * mu, e * mu;
    LargestRate(Abs(e), mu, z);
    assert drift == if e < 0.0 then -z else z;
    RateInside(f + k / mu, g - drift, z, mu);
    RateInside(f + k / mu + x / (2.0 * mu), g - drift + x / 2.0, z, mu);
  }

  lemma RateInside(w: real, phase: real, z: real, mu: real)
    requires mu > 0.0 && w * mu == phase && Abs(phase) <= 9.0 / 7.0 * z && 9.0 / 7.0 * z <= MAX_FREQUENCY * mu
    ensures Abs(w) <= MAX_FREQUENCY
  {
    UnderScale(w, MAX_FREQUENCY, mu);
  }

  lemma LargestRate(e: real, mu: real, z: real)
    requires mu > 0.0 && 0.0 <= e <= 7.0 / 18000.0 && z == e * mu
    ensures 0.0 <= z && 9.0 / 7.0 * z <= MAX_FREQUENCY * mu
  {
    assert (MAX_FREQUENCY - 9.0 / 7.0 * e) * mu >= 0.0;
  }

  /** Every cycle on the way: convergence, from the same side of zero throughout. */
  lemma {:induction false} Approaches(l: Loop, mu: real, n: nat, root: real -> real)
    requires Regular(l, mu) && Approaching(l, mu)
    ensures var l' := Cycles(l, mu, n, root);
            && Regular(l', mu) && Approaching(l', mu) && l'.plant.error == l.plant.error
            && l'.Energy(mu) <= Shrink(mu, n) * l.Energy(mu)
  {
    hide Regular, Approaching, Cycle, Loop.Energy, Loop.X, Loop.G, Lesson;
    if n > 0 {
      Approaches(l, mu, n - 1, root);
      ApproachingCycle(Cycles(l, mu, n - 1, root), mu, root);
      Compound(Cycles(l, mu, n, root).Energy(mu), Cycles(l, mu, n - 1, root).Energy(mu),
               Decay(mu), Shrink(mu, n - 1), l.Energy(mu));
    }
  }

  /** A fresh discipline, a clock right at first, polled every 64 s. */
  function FreshStart(error: real): Loop {
    Loop(Plant(error, 0.0, 0.0), Fresh(0.0), 0.0)
  }

  lemma FreshStartApproaches(error: real, root: real -> real)
    requires Abs(error) <= 7.0 / 18000.0
    ensures var l := Cycle(FreshStart(error), 64.0, root);
            Regular(l, 64.0) && Approaching(l, 64.0) && l.plant.error == error
            && l.Energy(64.0) == 33.0 * (64.0 * error) * (64.0 * error)
  {
    FirstOf64(error, root);
    hide Cycle, FreshStart;
    var l, z := Cycle(FreshStart(error), 64.0, root), 64.0 * error;
    assert l.X() == -z && l.G(64.0) == z;
    assert l.Energy(64.0) == z * z + 32.0 * (z * z) == 33.0 * z * z;
  }

  lemma FirstOf64(error: real, root: real -> real)
    requires Abs(error) <= 7.0 / 18000.0
    ensures var l := Cycle(FreshStart(error), 64.0, root);
            Regular(l, 64.0) && l.plant.error == error && l.X() == -64.0 * error && l.servo.frequency == 0.0
  {
  }

  /** For every crystal within 388 parts per million: after n polls of 64 s beyond the first, no clamp having fired, the
      squared offset is within (15/16)^n of the energy after the first, the offset has never changed sign,
      and the learned frequency lies between none and the one that cancels the crystal's error. */
  lemma FreshStartConverges(error: real, n: nat, root: real -> real)
    requires Abs(error) <= 7.0 / 18000.0
    ensures var l := Cycles(Cycle(FreshStart(error), 64.0, root), 64.0, n, root);
            var x := l.X();
            && x * x <= Shrink(64.0, n) * (33.0 * (64.0 * error) * (64.0 * error))
            && (if error < 0.0 then x >= 0.0 && 0.0 <= l.servo.frequency <= -error
                else x <= 0.0 && -error <= l.servo.frequency <= 0.0)
  {
    hide Regular, Cycle, Cycles, Loop.Energy, Shrink, FreshStart;
    FreshStartApproaches(error, root);
    var l := Cycle(FreshStart(error), 64.0, root);
    Approaches(l, 64.0, n, root);
    OffsetWithinEnergy(Cycles(l, 64.0, n, root), 64.0);
  }

  lemma OffsetWithinEnergy(l: Loop, mu: real)
    ensures l.X() * l.X() <= l.Energy(mu)
  {
    var g := l.G(mu);
    assert g * g >= 0.0;
  }
}
