/**
 The same loop when the interval between updates changes underneath it: within a factor of
 two it may vary in any way and the loop still contracts; by a factor of four it need not.
 */
module VaryingLoop {
  import opened Numbers
  import opened Discipline
  import opened ClosedLoop

  /** The rate the clock would keep on the learned frequency alone. */
  function Drift(l: Loop): real {
    l.plant.error + l.servo.frequency
  }

  /** The next cycle, of nu seconds, reaches no clamp and no threshold. */
  predicate Clear(l: Loop, nu: real)
    requires nu > 0.0
  {
    var x, f := l.plant.Advance(nu).Measured(), l.servo.frequency;
    && Abs(x) <= STEP_THRESHOLD
    && Abs(f + x / 16.0 / nu) <= MAX_FREQUENCY
    && Abs(f + x / 16.0 / nu + x / (2.0 * nu)) <= MAX_FREQUENCY
  }

  /** Where a loop tuned for mu takes the clock in nu seconds. */
  lemma NextAfter(l: Loop, mu: real, nu: real)
    requires Tuned(l, mu) && nu > 0.0
    ensures l.plant.Advance(nu).Measured() == l.X() - l.servo.lastOffset * (nu / (2.0 * mu)) - Drift(l) * nu
  {
    var h, c := l.servo.lastOffset / (2.0 * mu), nu / (2.0 * mu);
    assert h * (2.0 * mu) == l.servo.lastOffset && c * (2.0 * mu) == nu;
    Associate(h, c, 2.0 * mu);
    assert (Drift(l) + h) * nu == Drift(l) * nu + h * nu;
  }

  lemma Associate(h: real, c: real, m: real)
    ensures h * (c * m) == h * m * c
  {
  }

  /** What such a cycle does to a regular loop: it is regular again, now tuned for nu. */
  lemma ChangedCycle(l: Loop, mu: real, nu: real, root: real -> real)
    requires Regular(l, mu) && 0.25 <= nu < FLL_INTERVAL && Clear(l, nu)
    ensures var l' := Cycle(l, nu, root);
            && Regular(l', nu)
            && l'.X() == l.X() - l.X() * (nu / (2.0 * mu)) - Drift(l) * nu
            && Drift(l') == Drift(l) + l'.X() / 16.0 / nu
            && l'.plant.error == l.plant.error
  {
    hide Updated;
    var x := l.plant.Advance(nu).Measured();
    NextAfter(l, mu, nu);
    assert Lesson(x, l.servo.lastOffset, nu) == x / 16.0;
    Unclamped(l.servo, x, l.now + nu, nu, root);
  }

  /** With the frequency learned, exactly when a change of interval leaves the clock closer to the
      truth than it was: when the new interval is less than four times the one it was tuned for. */
  lemma OvershootsExactly(l: Loop, mu: real, nu: real)
    requires Regular(l, mu) && nu > 0.0 && Drift(l) == 0.0 && l.X() != 0.0
    ensures Abs(l.plant.Advance(nu).Measured()) < Abs(l.X()) <==> nu < 4.0 * mu
  {
    var c := nu / (2.0 * mu);
    NextAfter(l, mu, nu);
    assert c * (2.0 * mu) == nu;
    assert c < 2.0 <==> nu < 4.0 * mu by {
      ScaleOrder(c, 2.0, 2.0 * mu);
    }
    assert c > 0.0 by {
      if c <= 0.0 {
        ScaleOrder(-c, 0.0, 2.0 * mu);
      }
    }
    ShrinksExactly(l.X(), c);
  }

  lemma ScaleOrder(a: real, b: real, m: real)
    requires m > 0.0
    ensures a < b <==> a * m < b * m
  {
    if a < b {
      ProductIsPositive(b - a, m, (b - a) * m);
    } else {
      assert (a - b) * m >= 0.0;
    }
  }

  lemma ShrinksExactly(x: real, c: real)
    requires x != 0.0 && c > 0.0
    ensures Abs(x - x * c) < Abs(x) <==> c < 2.0
  {
    var size, rest := Abs(x), c * Abs(x);
    ScaleOrder(c, 2.0, size);
    ProductIsPositive(c, size, rest);
    Mirror(x, c);
    Inside(size, rest);
  }

  lemma Inside(size: real, rest: real)
    requires rest > 0.0
    ensures Abs(size - rest) < size <==> rest < 2.0 * size
  {
  }

  lemma Mirror(x: real, c: real)
    ensures Abs(x - x * c) == Abs(Abs(x) - c * Abs(x))
  {
    var y := x * c;
    if x >= 0.0 {
      assert c * Abs(x) == y;
    } else {
      assert c * Abs(x) == -y;
    }
  }

  /** So the interval can destabilise the loop: tuned for 64 s with the frequency learned and one millisecond off, it
      is three milliseconds off on the other side after 512 s and still over 2.7 after 64 more, no clamp touched. */
  lemma IntervalsDestabilise(root: real -> real) returns (l: Loop)
    ensures Regular(l, 64.0) && Calm(l, 64.0, 0.001) && Drift(l) == 0.0 && l.X() == 0.001
    ensures Clear(l, 512.0) && Cycle(l, 512.0, root).X() == -0.003
    ensures Clear(Cycle(l, 512.0, root), 64.0) && Cycle(Cycle(l, 512.0, root), 64.0, root).X() < -0.0027
  {
    l := SettledAt64();
    hide Cycle, Loop.X, Regular, Calm, Clear, Drift;
    FirstLeg(l);
    ChangedCycle(l, 64.0, 512.0, root);
    var m := Cycle(l, 512.0, root);
    SecondLeg(m);
    ChangedCycle(m, 512.0, 64.0, root);
  }

  lemma SettledAt64() returns (l: Loop)
    ensures Regular(l, 64.0) && Calm(l, 64.0, 0.001) && Drift(l) == 0.0 && l.X() == 0.001
    ensures l.plant.error == 0.0 && l.servo.frequency == 0.0
  {
    l := Loop(Plant(0.0, 0.001 / 128.0, -0.001),
              Servo(Settling, 0.0, 0.0, Some(0.0), 0.001, None, 0.0, 1, 0.0), 0.0);
  }

  lemma FirstLeg(l: Loop)
    requires Regular(l, 64.0) && l.X() == 0.001 && l.plant.error == 0.0 && l.servo.frequency == 0.0
    ensures Clear(l, 512.0)
    ensures l.X() - l.X() * (512.0 / (2.0 * 64.0)) - Drift(l) * 512.0 == -0.003
  {
    NextAfter(l, 64.0, 512.0);
    hide Loop.X, Regular;
    ClearWhen(l, 512.0, -0.003, -0.003 / 16.0 / 512.0);
  }

  lemma SecondLeg(m: Loop)
    requires Regular(m, 512.0) && m.X() == -0.003 && m.plant.error == 0.0 && Drift(m) == -0.003 / 16.0 / 512.0
    ensures Clear(m, 64.0)
    ensures m.X() - m.X() * (64.0 / (2.0 * 512.0)) - Drift(m) * 64.0 < -0.0027
  {
    NextAfter(m, 512.0, 64.0);
    hide Loop.X, Regular;
    var x := m.plant.Advance(64.0).Measured();
    assert -0.003 < x < -0.0027;
    ClearWhen(m, 64.0, x, m.servo.frequency + x / 16.0 / 64.0);
  }

  // ----- within a factor of two -----

  /** An energy that serves every interval: p is the rate over the shortest of them. */
  function Sway(x: real, p: real): real {
    x * x + 4.0 * (x * p) + 43.0 * (p * p)
  }

  lemma SwayIsNonNegative(x: real, p: real)
    ensures Sway(x, p) >= 0.0
    ensures x * x <= 43.0 / 39.0 * Sway(x, p) && p * p <= Sway(x, p) / 39.0
  {
    var y, z := x + 2.0 * p, 43.0 * p + 2.0 * x;
    assert Sway(x, p) == y * y + 39.0 * (p * p);
    assert 43.0 * Sway(x, p) == z * z + 39.0 * (x * x);
    assert y * y >= 0.0 && z * z >= 0.0 && p * p >= 0.0;
  }

  /** A bound that holds at two points holds between them. */
  lemma SwayBetween(x: real, p: real, y: real, q: real, w: real, mx: real, mp: real, bound: real)
    requires 0.0 <= w <= 1.0 && Sway(x, p) <= bound && Sway(y, q) <= bound
    requires mx == y + w * (x - y) && mp == q + w * (p - q)
    ensures Sway(mx, mp) <= bound
  {
    var slope, bend := SwayLine(x, p, y, q, w, mx, mp);
    Chord(Sway(y, q), slope, bend, w, bound);
  }

  /** Along the line from (y, q) to (x, p) the energy is a parabola. */
  lemma SwayLine(x: real, p: real, y: real, q: real, w: real, mx: real, mp: real) returns (slope: real, bend: real)
    requires mx == y + w * (x - y) && mp == q + w * (p - q)
    ensures bend >= 0.0 && Sway(x, p) == Sway(y, q) + 2.0 * slope + bend
    ensures Sway(mx, mp) == Sway(y, q) + 2.0 * (w * slope) + w * w * bend
  {
    var u, v := x - y, p - q;
    slope, bend := Tangent(y, q, u, v), Sway(u, v);
    SwaySum(y, q, u, v);
    SwayAlong(y, q, u, v, w);
    SwayIsNonNegative(u, v);
    hide Sway, Tangent;
    assert y + u == x && q + v == p && y + w * u == mx && q + w * v == mp;
  }

  function Tangent(y: real, q: real, u: real, v: real): real {
    y * u + 2.0 * (y * v + u * q) + 43.0 * (q * v)
  }

  lemma SwaySum(y: real, q: real, u: real, v: real)
    ensures Sway(y + u, q + v)
            == Sway(y, q) + 2.0 * Tangent(y, q, u, v) + Sway(u, v)
  {
  }

  lemma SwayAlong(y: real, q: real, u: real, v: real, w: real)
    ensures Sway(y + w * u, q + w * v)
            == Sway(y, q) + 2.0 * (w * Tangent(y, q, u, v)) + w * w * Sway(u, v)
  {
  }

  /** A parabola that opens upwards lies below its chord. */
  lemma Chord(start: real, slope: real, bend: real, w: real, bound: real)
    requires 0.0 <= w <= 1.0 && bend >= 0.0 && start <= bound && start + 2.0 * slope + bend <= bound
    ensures start + 2.0 * (w * slope) + w * w * bend <= bound
  {
    NonNegative(w, 1.0 - w, w - w * w);
    var curved, level, rise := w * w * bend, w * bend, w * slope;
    AtMost(bend, w * w, w);
    assert curved <= level;
    var whole, first, most := w * (start + 2.0 * slope + bend), w * start, w * bound;
    AtMost(w, start + 2.0 * slope + bend, bound);
    assert whole == first + 2.0 * rise + level;
    AtMost(1.0 - w, start, bound);
    assert (1.0 - w) * start == start - first && (1.0 - w) * bound == bound - most;
    hide *;
    Below(start, bound, first, most, rise, level, curved);
  }

  lemma Below(start: real, bound: real, first: real, most: real, rise: real, level: real, curved: real)
    requires curved <= level && first + 2.0 * rise + level <= most && start - first <= bound - most
    ensures start + 2.0 * rise + curved <= bound
  {
  }

  lemma NonNegative(a: real, b: real, c: real)
    requires a >= 0.0 && b >= 0.0 && c == a * b
    ensures c >= 0.0
  {
  }

  lemma AtMost(p: real, a: real, b: real)
    requires p >= 0.0 && a <= b
    ensures p * a <= p * b
  {
  }

  /** The corners: the state after a cycle of k shortest intervals, j being 1/k, tuned for as long or half as long. */
  lemma CornerSway(x: real, p: real, k: real, j: real, x': real, p': real)
    requires (k == 1.0 || k == 2.0) && (j == 0.5 || j == 1.0)
    requires x' == 3.0 / 4.0 * x - k * p && p' == 15.0 / 16.0 * p + 3.0 / 64.0 * (j * x)
    ensures Sway(x', p') <= 15.0 / 16.0 * Sway(x, p)
  {
    var lost := 15.0 / 16.0 * Sway(x, p) - Sway(x', p');
    assert p * p >= 0.0;
    if k == 1.0 && j == 0.5 {
      var y := x + 1752.0 / 1535.0 * p;
      assert lost == 4605.0 / 16384.0 * (y * y) + 120427.0 / 24560.0 * (p * p);
    } else if k == 1.0 {
      var y := x - 788.0 / 191.0 * p;
      assert lost == 573.0 / 4096.0 * (y * y) + 8827.0 / 3056.0 * (p * p);
    } else if j == 0.5 {
      var y := x + 6104.0 / 1535.0 * p;
      assert lost == 4605.0 / 16384.0 * (y * y) + 38683.0 / 24560.0 * (p * p);
    } else {
      var y := x + 364.0 / 191.0 * p;
      assert lost == 573.0 / 4096.0 * (y * y) + 16843.0 / 3056.0 * (p * p);
    }
  }

  lemma SideSway(x: real, p: real, k: real, j: real, x': real, p': real)
    requires (k == 1.0 || k == 2.0) && 0.5 <= j <= 1.0
    requires x' == 3.0 / 4.0 * x - k * p && p' == 15.0 / 16.0 * p + 3.0 / 64.0 * (j * x)
    ensures Sway(x', p') <= 15.0 / 16.0 * Sway(x, p)
  {
    var q, q' := 15.0 / 16.0 * p + 3.0 / 64.0 * (0.5 * x), 15.0 / 16.0 * p + 3.0 / 64.0 * (1.0 * x);
    CornerSway(x, p, k, 0.5, x', q);
    CornerSway(x, p, k, 1.0, x', q');
    SwayBetween(x', q', x', q, 2.0 * j - 1.0, x', p', 15.0 / 16.0 * Sway(x, p));
  }

  /** The edge where as much of the offset as can be is left, between the corners. */
  lemma EdgeSway(x: real, p: real, k: real, j: real, x': real, p': real)
    requires 1.0 <= k <= 2.0 && 0.5 <= j <= 1.0
    requires x' == 3.0 / 4.0 * x - k * p && p' == 15.0 / 16.0 * p + 3.0 / 64.0 * (j * x)
    ensures Sway(x', p') <= 15.0 / 16.0 * Sway(x, p)
  {
    var near, far := 3.0 / 4.0 * x - 1.0 * p, 3.0 / 4.0 * x - 2.0 * p;
    SideSway(x, p, 1.0, j, near, p');
    SideSway(x, p, 2.0, j, far, p');
    SwayBetween(far, p', near, p', k - 1.0, x', p', 15.0 / 16.0 * Sway(x, p));
  }

  /** The edge where none of it is. */
  lemma AllSlewed(x: real, p: real, k: real, x': real, p': real)
    requires 1.0 <= k <= 2.0 && x' == -k * p && p' == 15.0 / 16.0 * p
    ensures Sway(x', p') <= 15.0 / 16.0 * Sway(x, p)
  {
    var d, s := x + 2.0 * p, p * p;
    assert Sway(x, p) == d * d + 39.0 * s && s >= 0.0 && d * d >= 0.0;
    assert x' * x' == k * k * s && x' * p' == -15.0 / 16.0 * (k * s) && p' * p' == 225.0 / 256.0 * s;
    AtMost(s, 1.0, k);
    NonNegative(k - 1.0, 2.0 - k, 3.0 * k - k * k - 2.0);
    AtMost(s, k * k, 3.0 * k - 2.0);
  }

  /** Any cycle: a is what the slew leaves of the offset, k the interval in shortest ones. */
  lemma SwayShrinks(x: real, p: real, x': real, p': real, a: real, k: real, j: real)
    requires 0.0 <= a <= 3.0 / 4.0 && 1.0 <= k <= 2.0 && j * k == 1.0
    requires x' == a * x - k * p && p' == p + j * x' / 16.0
    ensures Sway(x', p') <= 15.0 / 16.0 * Sway(x, p)
  {
    var kp, jx := k * p, j * x;
    InverseInRange(k, j);
    RateAfter(x, p, x', a, k, j, jx);
    var edge, rate := 3.0 / 4.0 * x - kp, 15.0 / 16.0 * p + 3.0 / 64.0 * jx;
    EdgeSway(x, p, k, j, edge, rate);
    AllSlewed(x, p, k, -kp, 15.0 / 16.0 * p);
    hide *;
    Blend(a, x, jx, -kp, 15.0 / 16.0 * p, edge, rate, x', p', 15.0 / 16.0 * Sway(x, p));
  }

  /** Between the two edges. */
  lemma Blend(a: real, x: real, jx: real, slewed: real, rest: real, edge: real, rate: real, x': real, p': real, bound: real)
    requires 0.0 <= a <= 3.0 / 4.0 && Sway(edge, rate) <= bound && Sway(slewed, rest) <= bound
    requires edge == 3.0 / 4.0 * x + slewed && rate == rest + 3.0 / 64.0 * jx
    requires x' == a * x + slewed && p' == rest + a * jx / 16.0
    ensures Sway(x', p') <= bound
  {
    hide *;
    var w := 4.0 / 3.0 * a;
    assert w * (edge - slewed) == a * x && w * (rate - rest) == a * jx / 16.0;
    SwayBetween(edge, rate, slewed, rest, w, x', p', bound);
  }

  lemma RateAfter(x: real, p: real, x': real, a: real, k: real, j: real, jx: real)
    requires j * k == 1.0 && x' == a * x - k * p && jx == j * x
    ensures p + j * x' / 16.0 == 15.0 / 16.0 * p + a * jx / 16.0
  {
    assert j * x' == a * (j * x) - j * k * p;
  }

  lemma InverseInRange(k: real, j: real)
    requires 1.0 <= k <= 2.0 && j * k == 1.0
    ensures 0.5 <= j <= 1.0
  {
    ScaleOrder(j, 0.5, k);
    ScaleOrder(1.0, j, k);
  }

  // ----- and as runs of the loop -----

  predicate InBand(low: real, mu: real) {
    0.25 <= low <= mu <= 2.0 * low && mu < FLL_INTERVAL
  }

  /** The phase the clock drifts over the shortest interval. */
  function Wander(l: Loop, low: real): real {
    Drift(l) * low
  }

  /** Where no clamp or threshold can fire, whatever the next interval of the band. */
  ghost predicate Steady(l: Loop, low: real, r: real) {
    && r >= 0.0 && 17.0 / 16.0 * r <= STEP_THRESHOLD
    && Sway(l.X(), Wander(l, low)) <= r * r
    && Abs(l.plant.error) * low + 7.0 / 10.0 * r <= MAX_FREQUENCY * low
  }

  lemma SteadyBounds(x: real, p: real, r: real)
    requires r >= 0.0 && Sway(x, p) <= r * r
    ensures -17.0 / 16.0 * r <= x <= 17.0 / 16.0 * r && -r / 6.0 <= p <= r / 6.0
  {
    SwayIsNonNegative(x, p);
    var a, b := 17.0 / 16.0 * r, r / 6.0;
    assert a * a == 289.0 / 256.0 * (r * r) && b * b == r * r / 36.0 && r * r >= 0.0;
    RootBound(x, a);
    RootBound(p, b);
  }

  /** The ratios of the three intervals at play. */
  lemma Ratios(low: real, mu: real, nu: real)
    requires InBand(low, mu) && InBand(low, nu)
    ensures 1.0 <= nu / low <= 2.0 && low / nu * (nu / low) == 1.0 && 0.0 <= low / nu <= 1.0
    ensures 0.0 <= 1.0 - nu / (2.0 * mu) <= 3.0 / 4.0
  {
    Quotient(nu, low, 1.0, 2.0);
    Quotient(low, nu, 0.0, 1.0);
    Quotient(nu, 2.0 * mu, 1.0 / 4.0, 1.0);
    var k, j := nu / low, low / nu;
    assert k * low == nu && j * nu == low;
    assert j * k * low == j * nu;
    Cancel(j * k, 1.0, low);
  }

  lemma Quotient(a: real, b: real, least: real, most: real)
    requires b > 0.0 && least * b <= a <= most * b
    ensures least <= a / b <= most
  {
    var q := a / b;
    assert q * b == a;
    ScaleOrder(q, least, b);
    ScaleOrder(most, q, b);
  }

  lemma Cancel(a: real, b: real, m: real)
    requires m != 0.0 && a * m == b * m
    ensures a == b
  {
    assert (a - b) * m == 0.0;
  }

  /** The next state in these terms, whether or not a clamp is touched. */
  lemma NextSway(l: Loop, low: real, mu: real, nu: real, r: real, x: real, p: real)
    requires InBand(low, mu) && InBand(low, nu) && Sway(l.X(), Wander(l, low)) <= r * r
    requires x == l.X() - l.X() * (nu / (2.0 * mu)) - Drift(l) * nu
    requires p == (Drift(l) + x / 16.0 / nu) * low
    ensures Sway(x, p) <= 15.0 / 16.0 * Sway(l.X(), Wander(l, low)) <= r * r
  {
    hide Sway, Loop.X;
    Ratios(low, mu, nu);
    InUnits(Drift(l), x, low, nu);
    SwayStep(l.X(), Wander(l, low), x, p, nu / (2.0 * mu), nu / low, low / nu);
    SwayIsNonNegative(l.X(), Wander(l, low));
  }

  /** Rates and intervals, in terms of the shortest interval. */
  lemma InUnits(d: real, x: real, low: real, nu: real)
    requires low > 0.0 && nu > 0.0
    ensures d * nu == nu / low * (d * low)
    ensures (d + x / 16.0 / nu) * low == d * low + low / nu * x / 16.0
  {
    var k, q := nu / low, x / 16.0 / nu;
    assert k * low == nu;
    Associate(d, k, low);
    Portion(x / 16.0, nu, low);
    assert (d + q) * low == d * low + q * low;
    Sixteenth(low / nu, x);
  }

  lemma Sixteenth(j: real, x: real)
    ensures j * (x / 16.0) == j * x / 16.0
  {
  }

  lemma Portion(a: real, nu: real, low: real)
    requires nu > 0.0
    ensures a / nu * low == low / nu * a
  {
    var q, j := a / nu, low / nu;
    assert q * nu == a && j * nu == low;
    assert q * low == q * (j * nu) == j * (q * nu);
  }

  lemma SwayStep(x: real, p: real, x': real, p': real, c: real, k: real, j: real)
    requires 0.0 <= 1.0 - c <= 3.0 / 4.0 && 1.0 <= k <= 2.0 && j * k == 1.0
    requires x' == x - x * c - k * p && p' == p + j * x' / 16.0
    ensures Sway(x', p') <= 15.0 / 16.0 * Sway(x, p)
  {
    hide Sway;
    assert (1.0 - c) * x == x - x * c;
    SwayShrinks(x, p, x', p', 1.0 - c, k, j);
  }

  lemma SteadyIsClear(l: Loop, low: real, mu: real, nu: real, r: real)
    requires Regular(l, mu) && InBand(low, mu) && InBand(low, nu) && Steady(l, low, r)
    ensures Clear(l, nu)
  {
    var x, w, p := SteadyNext(l, low, mu, nu, r);
    Ratios(low, mu, nu);
    hide *;
    SteadyBounds(x, p, r);
    SteadyRates(l.plant.error, w, x, p, low, nu, r);
    ClearWhen(l, nu, x, w);
  }

  /** The next measurement, the rate it would teach, and that as phase over the shortest interval. */
  lemma SteadyNext(l: Loop, low: real, mu: real, nu: real, r: real) returns (x: real, w: real, p: real)
    requires Regular(l, mu) && InBand(low, mu) && InBand(low, nu) && Steady(l, low, r)
    ensures x == l.plant.Advance(nu).Measured() && w == l.servo.frequency + x / 16.0 / nu
    ensures p == (l.plant.error + w) * low && Sway(x, p) <= r * r
  {
    hide Sway, Loop.X;
    x := l.plant.Advance(nu).Measured();
    w := l.servo.frequency + x / 16.0 / nu;
    p := (l.plant.error + w) * low;
    NextAfter(l, mu, nu);
    assert l.plant.error + w == Drift(l) + x / 16.0 / nu;
    SameTimes(l.plant.error + w, Drift(l) + x / 16.0 / nu, low);
    hide Drift, Regular;
    NextSway(l, low, mu, nu, r, x, p);
  }

  lemma ClearWhen(l: Loop, nu: real, x: real, w: real)
    requires nu > 0.0 && x == l.plant.Advance(nu).Measured() && w == l.servo.frequency + x / 16.0 / nu
    requires Abs(x) <= STEP_THRESHOLD && Abs(w) <= MAX_FREQUENCY && Abs(w + x / (2.0 * nu)) <= MAX_FREQUENCY
    ensures Clear(l, nu)
  {
  }

  lemma SteadyRates(e: real, w: real, x: real, p: real, low: real, nu: real, r: real)
    requires low > 0.0 && nu > 0.0 && 0.0 <= low / nu <= 1.0 && p == (e + w) * low
    requires Abs(e) * low + 7.0 / 10.0 * r <= MAX_FREQUENCY * low
    requires -17.0 / 16.0 * r <= x <= 17.0 / 16.0 * r && -r / 6.0 <= p <= r / 6.0
    ensures Abs(w) <= MAX_FREQUENCY && Abs(w + x / (2.0 * nu)) <= MAX_FREQUENCY
  {
    var h, j := x / (2.0 * nu), low / nu;
    assert h == x / 2.0 / nu by {
      assert h * (2.0 * nu) == x;
      DivideBack(x / 2.0, nu, h);
    }
    Portion(x / 2.0, nu, low);
    Within(j, x / 2.0, 17.0 / 32.0 * r);
    assert w * low == p - e * low && (w + h) * low == w * low + h * low;
    RateBound(w, p, e, low, 7.0 / 10.0 * r);
    RateBound(w + h, p + h * low, e, low, 7.0 / 10.0 * r);
  }

  lemma Within(j: real, x: real, bound: real)
    requires 0.0 <= j <= 1.0 && -bound <= x <= bound
    ensures -bound <= j * x <= bound
  {
    var y := j * x;
    NonNegative(j, bound - x, j * bound - y);
    NonNegative(j, bound + x, j * bound + y);
    NonNegative(1.0 - j, bound, bound - j * bound);
  }

  /** One cycle, of any interval of the band: no clamp fires, a sixteenth of the energy goes, and the loop stays steady. */
  lemma VaryingCycle(l: Loop, low: real, mu: real, nu: real, r: real, root: real -> real)
    requires Regular(l, mu) && InBand(low, mu) && InBand(low, nu) && Steady(l, low, r)
    ensures var l' := Cycle(l, nu, root);
            && Regular(l', nu) && Steady(l', low, r)
            && Sway(l'.X(), Wander(l', low)) <= 15.0 / 16.0 * Sway(l.X(), Wander(l, low))
  {
    hide Cycle, Loop.X, Sway;
    SteadyIsClear(l, low, mu, nu, r);
    ChangedCycle(l, mu, nu, root);
    var l' := Cycle(l, nu, root);
    NextSway(l, low, mu, nu, r, l'.X(), Wander(l', low));
  }

  /** Cycle k has the interval intervals(k); the loop starts tuned for intervals(0). */
  function VaryingCycles(l: Loop, intervals: nat -> real, n: nat, root: real -> real): Loop {
    if n == 0 then l else Cycle(VaryingCycles(l, intervals, n - 1, root), intervals(n), root)
  }

  ghost predicate AllInBand(intervals: nat -> real, low: real) {
    forall k: nat :: InBand(low, intervals(k))
  }

  /** Geometric convergence whatever the intervals do, so long as none is more than twice another:
      in every cycle a sixteenth of the energy goes and no clamp is touched. */
  lemma {:induction false} VaryingConverges(l: Loop, low: real, intervals: nat -> real, r: real, n: nat, root: real -> real)
    requires AllInBand(intervals, low) && low < FLL_INTERVAL && Regular(l, intervals(0)) && Steady(l, low, r)
    ensures var l' := VaryingCycles(l, intervals, n, root);
            && Regular(l', intervals(n)) && Steady(l', low, r)
            && Sway(l'.X(), Wander(l', low)) <= Shrink(low, n) * Sway(l.X(), Wander(l, low))
            && l'.X() * l'.X() <= 43.0 / 39.0 * (Shrink(low, n) * Sway(l.X(), Wander(l, low)))
  {
    hide Regular, Steady, Cycle, Sway, Loop.X, Wander, InBand;
    var l' := VaryingCycles(l, intervals, n, root);
    if n > 0 {
      var before := VaryingCycles(l, intervals, n - 1, root);
      VaryingConverges(l, low, intervals, r, n - 1, root);
      VaryingCycle(before, low, intervals(n - 1), intervals(n), r, root);
      Compound(Sway(l'.X(), Wander(l', low)), Sway(before.X(), Wander(before, low)),
               Decay(low), Shrink(low, n - 1), Sway(l.X(), Wander(l, low)));
    }
    SwayIsNonNegative(l'.X(), Wander(l', low));
  }
}
