/**
 Two intervals taken in turn: exactly for which the loop settles, however far apart they are.
 It does if and only if a/b + b/a is less than 1137/272, a ratio of a little under four.
 */
module AlternatingLoop {
  import opened Numbers
  import opened Discipline
  import opened ClosedLoop
  import opened VaryingLoop

  /** The offset, and the phase the clock drifts over b seconds. */
  datatype Swing = Swing(x: real, g: real)

  /** What cycles of a and then b seconds do to the state, with rho = a/b and sigma = b/a. */
  function Midway(s: Swing, rho: real, sigma: real): Swing {
    var x := s.x - rho * s.x / 2.0 - rho * s.g;
    Swing(x, s.g + sigma * x / 16.0)
  }

  function HalfOn(m: Swing, sigma: real): Swing {
    var x := m.x - sigma * m.x / 2.0 - m.g;
    Swing(x, m.g + x / 16.0)
  }

  function Paired(s: Swing, rho: real, sigma: real): Swing {
    HalfOn(Midway(s, rho, sigma), sigma)
  }

  function Swung(s: Swing, rho: real, sigma: real, n: nat): Swing {
    if n == 0 then s else Paired(Swung(s, rho, sigma, n - 1), rho, sigma)
  }

  // ----- the loop follows it -----

  function Ratio(a: real, b: real): real
    requires b > 0.0
  {
    a / b
  }

  function Pairs(l: Loop, a: real, b: real, n: nat, root: real -> real): Loop {
    if n == 0 then l else Cycle(Cycle(Pairs(l, a, b, n - 1, root), a, root), b, root)
  }

  ghost predicate Unhindered(l: Loop, a: real, b: real, n: nat, root: real -> real)
    requires a > 0.0 && b > 0.0
  {
    forall k: nat :: k < n ==> ClearPair(Pairs(l, a, b, k, root), a, b, root)
  }

  predicate ClearPair(l: Loop, a: real, b: real, root: real -> real)
    requires a > 0.0 && b > 0.0
  {
    Clear(l, a) && Clear(Cycle(l, a, root), b)
  }

  function AsSwing(l: Loop, b: real): Swing {
    Swing(l.X(), Drift(l) * b)
  }

  predicate Intervals(a: real, b: real) {
    0.25 <= a < FLL_INTERVAL && 0.25 <= b < FLL_INTERVAL
  }

  lemma FirstIsLinear(l: Loop, a: real, b: real, root: real -> real)
    requires Intervals(a, b) && Regular(l, b) && Clear(l, a)
    ensures var m := Cycle(l, a, root);
            Regular(m, a) && m.plant.error == l.plant.error && AsSwing(m, b) == Midway(AsSwing(l, b), Ratio(a, b), Ratio(b, a))
  {
    hide Cycle, Loop.X, Clear, Regular;
    var m := Cycle(l, a, root);
    ChangedCycle(l, b, a, root);
    FirstHalf(l.X(), Drift(l), m.X(), Drift(m), a, b);
  }

  lemma SecondIsLinear(m: Loop, a: real, b: real, root: real -> real)
    requires Intervals(a, b) && Regular(m, a) && Clear(m, b)
    ensures var l := Cycle(m, b, root);
            Regular(l, b) && l.plant.error == m.plant.error && AsSwing(l, b) == HalfOn(AsSwing(m, b), Ratio(b, a))
  {
    hide Cycle, Loop.X, Clear, Regular;
    var l := Cycle(m, b, root);
    ChangedCycle(m, a, b, root);
    SecondHalf(m.X(), Drift(m), l.X(), Drift(l), a, b);
  }

  lemma PairIsLinear(l: Loop, a: real, b: real, root: real -> real)
    requires Intervals(a, b) && Regular(l, b) && ClearPair(l, a, b, root)
    ensures var m, l' := Cycle(l, a, root), Cycle(Cycle(l, a, root), b, root);
            && Regular(m, a) && AsSwing(m, b) == Midway(AsSwing(l, b), Ratio(a, b), Ratio(b, a))
            && Regular(l', b) && AsSwing(l', b) == Paired(AsSwing(l, b), Ratio(a, b), Ratio(b, a))
            && m.plant.error == l'.plant.error == l.plant.error
  {
    hide Cycle, Clear, Regular, AsSwing, Midway, HalfOn;
    FirstIsLinear(l, a, b, root);
    SecondIsLinear(Cycle(l, a, root), a, b, root);
  }

  lemma FirstHalf(x: real, d: real, x': real, d': real, a: real, b: real)
    requires a > 0.0 && b > 0.0
    requires x' == x - x * (a / (2.0 * b)) - d * a && d' == d + x' / 16.0 / a
    ensures x' == x - Ratio(a, b) * x / 2.0 - Ratio(a, b) * (d * b) && d' * b == d * b + Ratio(b, a) * x' / 16.0
  {
    HalfRatio(a, b);
    DriftOver(d, a, b);
    Taught(d, x', d', a, b);
  }

  lemma SecondHalf(x: real, d: real, x': real, d': real, a: real, b: real)
    requires a > 0.0 && b > 0.0
    requires x' == x - x * (b / (2.0 * a)) - d * b && d' == d + x' / 16.0 / b
    ensures x' == x - Ratio(b, a) * x / 2.0 - d * b && d' * b == d * b + x' / 16.0
  {
    HalfRatio(b, a);
    var q := x' / 16.0 / b;
    assert q * b == x' / 16.0;
    assert (d + q) * b == d * b + q * b;
  }

  lemma HalfRatio(a: real, b: real)
    requires b > 0.0
    ensures a / (2.0 * b) == a / b / 2.0
  {
    var q := a / b;
    assert q * b == a;
    DivideBack(a, 2.0 * b, q / 2.0);
  }

  lemma DriftOver(d: real, a: real, b: real)
    requires b > 0.0
    ensures d * a == a / b * (d * b)
  {
    var k := a / b;
    assert k * b == a;
    Associate(d, k, b);
  }

  lemma Taught(d: real, x: real, d': real, a: real, b: real)
    requires a > 0.0 && d' == d + x / 16.0 / a
    ensures d' * b == d * b + b / a * x / 16.0
  {
    var q := x / 16.0 / a;
    Portion(x / 16.0, a, b);
    assert (d + q) * b == d * b + q * b;
    Sixteenth(b / a, x);
  }

  lemma {:induction false} RunIsLinear(l: Loop, a: real, b: real, n: nat, root: real -> real)
    requires Intervals(a, b) && Regular(l, b) && Unhindered(l, a, b, n, root)
    ensures Regular(Pairs(l, a, b, n, root), b)
    ensures AsSwing(Pairs(l, a, b, n, root), b) == Swung(AsSwing(l, b), Ratio(a, b), Ratio(b, a), n)
  {
    hide Regular, Cycle, Loop.X, AsSwing, ClearPair, Paired, Ratio;
    if n > 0 {
      RunIsLinear(l, a, b, n - 1, root);
      PairIsLinear(Pairs(l, a, b, n - 1, root), a, b, root);
    }
  }

  // ----- a recurrence for the offset -----

  /** Product and sum of the two factors a pair multiplies by, for sum = a/b + b/a. */
  function Product(sum: real): real { 5.0 / 4.0 - sum / 2.0 }

  function Trace(sum: real): real { 561.0 / 256.0 - 9.0 / 16.0 * sum }

  /** The coefficients of the offset after a pair. */
  function OfOffset(rho: real, sigma: real): real { Product(rho + sigma) - (sigma - 1.0 / 2.0) / 16.0 }

  function OfDrift(rho: real): real { -rho - 7.0 / 16.0 }

  lemma Coefficients(s: Swing, rho: real, sigma: real)
    requires rho * sigma == 1.0
    ensures var s', p, r := Paired(s, rho, sigma), OfOffset(rho, sigma), OfDrift(rho);
            && s'.x == p * s.x + r * s.g
            && s'.g == (sigma - 1.0 / 2.0 + p) / 16.0 * s.x + (15.0 + r) / 16.0 * s.g
  {
    var x, g := s.x, s.g;
    var m := Midway(s, rho, sigma).x;
    assert m == x - rho * x / 2.0 - rho * g;
    var rx, sx, rg := rho * x, sigma * x, rho * g;
    assert sigma * rx == x by { Through(sigma, rho, x); }
    assert sigma * rg == g by { Through(sigma, rho, g); }
    assert sigma * m == sx - x / 2.0 - g by { ThreeTerms(sigma, x, rx, rg, m); }
    assert (rho + sigma) * x == rx + sx;
    var p, r := OfOffset(rho, sigma), OfDrift(rho);
    assert p * x == 41.0 / 32.0 * x - (rho + sigma) * x / 2.0 - sx / 16.0;
    assert r * g == -rg - 7.0 / 16.0 * g;
    assert (sigma - 1.0 / 2.0 + p) / 16.0 * x == (sx - x / 2.0 + p * x) / 16.0;
    assert (15.0 + r) / 16.0 * g == (15.0 * g + r * g) / 16.0;
  }

  lemma Through(sigma: real, rho: real, x: real)
    requires rho * sigma == 1.0
    ensures sigma * (rho * x) == x
  {
    assert sigma * (rho * x) == rho * sigma * x;
  }

  lemma ThreeTerms(sigma: real, x: real, rx: real, rg: real, m: real)
    requires m == x - rx / 2.0 - rg
    ensures sigma * m == sigma * x - sigma * rx / 2.0 - sigma * rg
  {
  }

  /** Every third offset, a pair apart, is determined by the two before it. */
  lemma OffsetRecurs(s: Swing, rho: real, sigma: real)
    requires rho * sigma == 1.0
    ensures var s' := Paired(s, rho, sigma);
            Paired(s', rho, sigma).x == Trace(rho + sigma) * s'.x - Product(rho + sigma) * s.x
  {
    Coefficients(s, rho, sigma);
    var s' := Paired(s, rho, sigma);
    Coefficients(s', rho, sigma);
    var p, r := OfOffset(rho, sigma), OfDrift(rho);
    var u, v := (sigma - 1.0 / 2.0 + p) / 16.0, (15.0 + r) / 16.0;
    Determinant(rho, sigma, p, r);
    assert p + v == Trace(rho + sigma);
    var d := Product(rho + sigma);
    hide *;
    Cayley(p, r, u, v, s.x, s.g, s'.x, s'.g, d);
  }

  lemma Determinant(rho: real, sigma: real, p: real, r: real)
    requires rho * sigma == 1.0 && p == OfOffset(rho, sigma) && r == OfDrift(rho)
    ensures p * ((15.0 + r) / 16.0) - r * ((sigma - 1.0 / 2.0 + p) / 16.0) == Product(rho + sigma)
  {
    var t := sigma - 1.0 / 2.0;
    assert p * ((15.0 + r) / 16.0) - r * ((t + p) / 16.0) == 15.0 / 16.0 * p - r * t / 16.0;
    assert r * t == -(rho * sigma) + rho / 2.0 - 7.0 / 16.0 * t;
  }

  lemma Cayley(p: real, r: real, u: real, v: real, x: real, g: real, x': real, g': real, d: real)
    requires x' == p * x + r * g && g' == u * x + v * g && p * v - r * u == d
    ensures p * x' + r * g' == (p + v) * x' - d * x
  {
    assert r * g' == r * u * x + v * (r * g);
    assert v * x' == v * p * x + v * (r * g);
    assert d * x == p * v * x - r * u * x;
  }

  lemma NextSwung(s: Swing, rho: real, sigma: real, n: nat)
    ensures Swung(s, rho, sigma, n + 1) == Paired(Swung(s, rho, sigma, n), rho, sigma)
  {
  }

  function Recurrence(trace: real, product: real, y: real, z: real): real {
    trace * z - product * y
  }

  ghost predicate Follows(x: nat -> real, trace: real, product: real) {
    forall n: nat :: x(n + 2) == Recurrence(trace, product, x(n), x(n + 1))
  }

  function Offsets(s: Swing, rho: real, sigma: real): nat -> real {
    (n: nat) => Swung(s, rho, sigma, n).x
  }

  lemma OffsetsFollow(s: Swing, rho: real, sigma: real)
    requires rho * sigma == 1.0
    ensures Follows(Offsets(s, rho, sigma), Trace(rho + sigma), Product(rho + sigma))
  {
    forall n: nat
      ensures Offsets(s, rho, sigma)(n + 2)
              == Recurrence(Trace(rho + sigma), Product(rho + sigma), Offsets(s, rho, sigma)(n), Offsets(s, rho, sigma)(n + 1))
    {
      hide Swung, Trace, Product, Recurrence;
      SwungRecurs(s, rho, sigma, n);
    }
  }

  lemma SwungRecurs(s: Swing, rho: real, sigma: real, n: nat)
    requires rho * sigma == 1.0
    ensures Swung(s, rho, sigma, n + 2).x
            == Recurrence(Trace(rho + sigma), Product(rho + sigma),
                          Swung(s, rho, sigma, n).x, Swung(s, rho, sigma, n + 1).x)
  {
    hide Paired, Trace, Product, Swung;
    NextSwung(s, rho, sigma, n);
    NextSwung(s, rho, sigma, n + 1);
    OffsetRecurs(Swung(s, rho, sigma, n), rho, sigma);
    assert n + 1 + 1 == n + 2;
  }

  // ----- below the limit every offset fades -----

  /** Jury's conditions: both factors of the recurrence lie inside the unit circle. */
  predicate Contracts(trace: real, product: real) {
    -1.0 < product < 1.0 && -(1.0 + product) < trace < 1.0 + product
  }

  /** How much of the energy below two successive offsets cost it, each squared. */
  function Loss(trace: real, product: real): real {
    (1.0 - product) * ((1.0 + product) * (1.0 + product) - trace * trace) / 2.0
  }

  function Potential(trace: real, product: real, y: real, z: real): real {
    ((1.0 + product) * (product * product) + Loss(trace, product)) * (y * y)
    + (1.0 + product) * (z * z) - 2.0 * (trace * product) * (y * z)
  }

  function Squares(y: real, z: real): real {
    y * y + z * z
  }

  lemma LossIsPositive(trace: real, product: real)
    requires Contracts(trace, product)
    ensures Loss(trace, product) > 0.0
    ensures (1.0 + product) * (1.0 + product) - trace * trace > 0.0
  {
    var gap := (1.0 + product) * (1.0 + product) - trace * trace;
    assert gap == (1.0 + product - trace) * (1.0 + product + trace);
    ProductIsPositive(1.0 + product - trace, 1.0 + product + trace, gap);
    ProductIsPositive(1.0 - product, gap, (1.0 - product) * gap);
  }

  /** One step of the recurrence. */
  lemma PotentialFalls(t: real, d: real, y: real, z: real, w: real)
    requires w == t * z - d * y
    ensures Potential(t, d, z, w) == Potential(t, d, y, z) - Loss(t, d) * Squares(y, z)
  {
    FallsIdentity(t, d, y, z);
    hide *;
  }

  lemma FallsIdentity(t: real, d: real, y: real, z: real)
    ensures Potential(t, d, z, t * z - d * y) == Potential(t, d, y, z) - Loss(t, d) * Squares(y, z)
  {
  }

  lemma UnfoldPotential(t: real, d: real, y: real, z: real)
    ensures Potential(t, d, y, z)
            == ((1.0 + d) * (d * d) + Loss(t, d)) * (y * y) + (1.0 + d) * (z * z) - 2.0 * (t * d) * (y * z)
  {
  }

  lemma PotentialIsNonNegative(t: real, d: real, y: real, z: real)
    requires Contracts(t, d)
    ensures Potential(t, d, y, z) >= 0.0
  {
    LossIsPositive(t, d);
    UnfoldPotential(t, d, y, z);
    var gap := (1.0 + d) * (1.0 + d) - t * t;
    hide *;
    FormIsNonNegative(t, d, y, z, 1.0 + d, Loss(t, d), gap, Potential(t, d, y, z));
  }

  lemma FormIsNonNegative(t: real, d: real, y: real, z: real, b: real, l: real, gap: real, potential: real)
    requires b > 0.0 && l > 0.0 && gap > 0.0 && gap == b * b - t * t
    requires potential == (b * (d * d) + l) * (y * y) + b * (z * z) - 2.0 * (t * d) * (y * z)
    ensures potential >= 0.0
  {
    var e, f := b * z - t * d * y, (b * b - t * t) * (d * d) + b * l;
    var ee, fyy := e * e, f * (y * y);
    Square(e, ee);
    Square(d, d * d);
    Square(y, y * y);
    NonNegative(gap, d * d, (b * b - t * t) * (d * d));
    NonNegative(b, l, b * l);
    NonNegative(f, y * y, fyy);
    SquareCompleted(t, d, y, z, b, l, potential, e, f, ee, fyy);
    hide *;
    FromScaled(potential, b, ee, fyy);
  }

  lemma FromScaled(p: real, b: real, e: real, f: real)
    requires b > 0.0 && b * p == e + f && e >= 0.0 && f >= 0.0
    ensures p >= 0.0
  {
    SignOfScaled(p, b);
  }

  lemma Square(a: real, square: real)
    requires square == a * a
    ensures square >= 0.0
  {
  }

  lemma SquareCompleted(t: real, d: real, y: real, z: real, b: real, l: real, potential: real,
                        e: real, f: real, ee: real, fyy: real)
    requires potential == (b * (d * d) + l) * (y * y) + b * (z * z) - 2.0 * (t * d) * (y * z)
    requires ee == e * e && e == b * z - t * d * y
    requires fyy == f * (y * y) && f == (b * b - t * t) * (d * d) + b * l
    ensures b * potential == ee + fyy
  {
    CompletedForm(t, d, y, z, b, l);
    SameTimes(f, (b * b - t * t) * (d * d) + b * l, y * y);
    SameSquare(e, b * z - t * d * y);
    SameTimes(potential, (b * (d * d) + l) * (y * y) + b * (z * z) - 2.0 * (t * d) * (y * z), b);
  }

  lemma SameSquare(a: real, b: real)
    requires a == b
    ensures a * a == b * b
  {
  }

  lemma CompletedForm(t: real, d: real, y: real, z: real, b: real, l: real)
    ensures b * ((b * (d * d) + l) * (y * y) + b * (z * z) - 2.0 * (t * d) * (y * z))
            == (b * z - t * d * y) * (b * z - t * d * y) + ((b * b - t * t) * (d * d) + b * l) * (y * y)
  {
  }

  function Most(t: real, d: real): real {
    (1.0 + d) * (d * d) + Loss(t, d) + (1.0 + d) + Abs(t * d)
  }

  lemma PotentialIsBounded(t: real, d: real, y: real, z: real)
    requires Contracts(t, d)
    ensures Potential(t, d, y, z) <= Most(t, d) * Squares(y, z)
    ensures Most(t, d) >= Loss(t, d)
  {
    LossIsPositive(t, d);
    hide Loss, Most, Potential, Squares;
    var a, c := (1.0 + d) * (d * d) + Loss(t, d), t * d;
    Square(d, d * d);
    NonNegative(1.0 + d, d * d, (1.0 + d) * (d * d));
    UnfoldMost(t, d);
    assert Potential(t, d, y, z) == a * (y * y) + (1.0 + d) * (z * z) - 2.0 * c * (y * z) by {
      UnfoldPotential(t, d, y, z);
    }
    hide *;
    FormIsBounded(a, 1.0 + d, c, y, z, Potential(t, d, y, z), Most(t, d));
  }

  lemma UnfoldMost(t: real, d: real)
    ensures Most(t, d) == (1.0 + d) * (d * d) + Loss(t, d) + (1.0 + d) + Abs(t * d)
    ensures Abs(t * d) >= 0.0
  {
  }

  lemma FormIsBounded(a: real, b: real, c: real, y: real, z: real, form: real, most: real)
    requires a >= 0.0 && b >= 0.0 && most == a + b + Abs(c)
    requires form == a * (y * y) + b * (z * z) - 2.0 * c * (y * z)
    ensures form <= most * Squares(y, z)
  {
    var yy, zz, yz := y * y, z * z, y * z;
    var m := yy + zz + (if c >= 0.0 then 2.0 * yz else -2.0 * yz);
    Square(y + z, yy + zz + 2.0 * yz);
    Square(y - z, yy + zz - 2.0 * yz);
    Square(y, yy);
    Square(z, zz);
    NonNegative(Abs(c), m, Abs(c) * m);
    NonNegative(a, zz, a * zz);
    NonNegative(b, yy, b * yy);
    Doubled(c, yy + zz, yz);
    hide *;
    Spread(a, b, Abs(c), yy, zz);
  }

  lemma Doubled(c: real, sum: real, yz: real)
    ensures Abs(c) * (sum + if c >= 0.0 then 2.0 * yz else -2.0 * yz) == Abs(c) * sum + 2.0 * c * yz
  {
  }

  lemma Spread(a: real, b: real, c: real, yy: real, zz: real)
    ensures (a + b + c) * (yy + zz) == a * yy + a * zz + b * yy + b * zz + c * (yy + zz)
  {
  }

  /** How fast the potential fades. */
  function Pace(t: real, d: real): real
    requires Contracts(t, d)
  {
    LossIsPositive(t, d);
    PotentialIsBounded(t, d, 0.0, 0.0);
    Loss(t, d) / Most(t, d)
  }

  lemma PaceIsPositive(t: real, d: real)
    requires Contracts(t, d)
    ensures Loss(t, d) > 0.0 && Most(t, d) > 0.0 && Pace(t, d) > 0.0
    ensures Pace(t, d) * Most(t, d) == Loss(t, d)
  {
    LossIsPositive(t, d);
    PotentialIsBounded(t, d, 0.0, 0.0);
    assert Pace(t, d) == Loss(t, d) / Most(t, d);
    hide *;
    QuotientIsPositive(Loss(t, d), Most(t, d));
  }

  lemma QuotientIsPositive(l: real, m: real)
    requires l > 0.0 && m > 0.0
    ensures l / m > 0.0 && l / m * m == l
  {
    var q := l / m;
    assert q * m == l;
    if q <= 0.0 {
      NonNegative(-q, m, -l);
    }
  }

  /** After n steps the potential is down to one part in 1 + n times a constant. */
  lemma {:induction false} PotentialFades(x: nat -> real, t: real, d: real, n: nat)
    requires Follows(x, t, d) && Contracts(t, d)
    ensures Potential(t, d, x(n), x(n + 1)) * (1.0 + n as real * Pace(t, d)) <= Potential(t, d, x(0), x(1))
  {
    hide Loss, Most, Pace, Potential, Squares;
    if n > 0 {
      PotentialFades(x, t, d, n - 1);
      PaceIsPositive(t, d);
      PotentialIsBounded(t, d, x(n - 1), x(n));
      PotentialIsNonNegative(t, d, x(n), x(n + 1));
      PotentialIsNonNegative(t, d, x(n - 1), x(n));
      assert x((n - 1) + 2) == Recurrence(t, d, x(n - 1), x((n - 1) + 1));
      PotentialFalls(t, d, x(n - 1), x(n), x(n + 1));
      FadesByOne(Potential(t, d, x(n - 1), x(n)), Potential(t, d, x(n), x(n + 1)), Squares(x(n - 1), x(n)),
                 Loss(t, d), Most(t, d), Pace(t, d), n as real);
    }
  }

  lemma FadesByOne(v: real, v': real, squares: real, loss: real, most: real, e: real, n: real)
    requires e > 0.0 && e * most == loss && v' == v - loss * squares && v <= most * squares
    requires v' >= 0.0 && v >= 0.0 && n >= 1.0
    ensures v' * (1.0 + n * e) <= v * (1.0 + (n - 1.0) * e)
  {
    assert v' <= v - e * v by {
      AtMost(e, v, most * squares);
      assert e * (most * squares) == loss * squares;
    }
    NonNegative(n, e, n * e);
    AtMost(1.0 + n * e, v', v - e * v);
    NonNegative(n, v, n * v);
    Square(e, e * e);
    NonNegative(e * e, n * v, e * e * (n * v));
    assert (1.0 + n * e) * (v - e * v) == v * (1.0 + (n - 1.0) * e) - e * e * (n * v);
  }

  /** So each offset, squared, is bounded by the first two, ever more tightly. */
  lemma OffsetFades(x: nat -> real, t: real, d: real, n: nat)
    requires Follows(x, t, d) && Contracts(t, d)
    ensures Loss(t, d) * (1.0 + n as real * Pace(t, d)) * (x(n) * x(n)) <= Most(t, d) * Squares(x(0), x(1))
  {
    hide Loss, Most, Pace, Potential, Contracts, Squares;
    PaceIsPositive(t, d);
    PotentialFades(x, t, d, n);
    PotentialIsBounded(t, d, x(0), x(1));
    LossIsAffordable(x, t, d, n);
    PutTogether(Loss(t, d), Pace(t, d), x(n), Potential(t, d, x(n), x(n + 1)), Most(t, d) * Squares(x(0), x(1)), n as real);
  }

  lemma LossIsAffordable(x: nat -> real, t: real, d: real, n: nat)
    requires Follows(x, t, d) && Contracts(t, d)
    ensures Loss(t, d) * (x(n) * x(n)) <= Potential(t, d, x(n), x(n + 1))
  {
    hide Loss, Potential, Contracts, Squares;
    LossIsPositive(t, d);
    assert x(n + 2) == Recurrence(t, d, x(n), x(n + 1));
    PotentialFalls(t, d, x(n), x(n + 1), x(n + 2));
    PotentialIsNonNegative(t, d, x(n + 1), x(n + 2));
    FirstOfSquares(Loss(t, d), x(n), x(n + 1));
  }

  lemma FirstOfSquares(l: real, y: real, z: real)
    requires l > 0.0
    ensures l * (y * y) <= l * Squares(y, z)
  {
    Square(z, z * z);
    AtMost(l, y * y, Squares(y, z));
  }

  lemma Associated(a: real, b: real, c: real)
    ensures a * (b * c) == a * b * c
  {
  }

  lemma FirstSquares(y: real, z: real, size: real, spread: real)
    requires -size <= y <= size && -spread * size <= z <= spread * size
    ensures Squares(y, z) <= (1.0 + spread * spread) * (size * size)
  {
    var far := spread * size;
    NonNegative(size - y, size + y, size * size - y * y);
    NonNegative(far - z, far + z, far * far - z * z);
    assert far * far == spread * spread * (size * size);
  }

  lemma PutTogether(l: real, e: real, y: real, v: real, most: real, n: real)
    requires n >= 0.0 && e > 0.0 && v * (1.0 + n * e) <= most && l * (y * y) <= v
    ensures l * (1.0 + n * e) * (y * y) <= most
  {
    var growth, yy := 1.0 + n * e, y * y;
    NonNegative(n, e, n * e);
    AtMost(growth, l * yy, v);
    Associated(growth, l, yy);
    assert growth * l == l * growth;
  }

  // ----- at the limit and above it some offset never fades -----

  /** Overshooting ever after: the signs alternate and the size never falls below what it was. */
  lemma {:induction false} NeverFades(x: nat -> real, t: real, d: real, c: real, n: nat)
    requires Follows(x, t, d) && t <= -(1.0 + d) && t <= 0.0 && d <= 0.0 && c >= 0.0
    requires x(0) == c && x(1) == -c
    ensures Seen(n % 2 == 0, x(n)) >= c && Seen(n % 2 == 1, x(n + 1)) >= c
  {
    if n > 0 {
      NeverFades(x, t, d, c, n - 1);
      var y, z := x(n - 1), x(n);
      assert x((n - 1) + 2) == Recurrence(t, d, x(n - 1), x((n - 1) + 1));
      var up := (n - 1) % 2 == 0;
      NonNegative(-t, Seen(!up, z) - c, -t * (Seen(!up, z) - c));
      NonNegative(-d, Seen(up, y) - c, -d * (Seen(up, y) - c));
      NonNegative(-t - d - 1.0, c, (-t - d - 1.0) * c);
      SeenNext(t, d, y, z, up);
    }
  }

  lemma SeenNext(t: real, d: real, y: real, z: real, up: bool)
    ensures Seen(up, Recurrence(t, d, y, z)) == -t * Seen(!up, z) - d * Seen(up, y)
  {
  }

  // ----- small starts reach no clamp for as long as one likes -----

  const TINY: real := 0.00006

  predicate Small(s: Swing, t: real) {
    -t <= s.x <= t && -t <= s.g <= t
  }

  lemma Times(r: real, x: real, t: real)
    requires r >= 0.0 && -t <= x <= t
    ensures -(r * t) <= r * x <= r * t
  {
    AtMost(r, x, t);
    AtMost(r, -t, x);
  }

  /** By how much a pair can enlarge the state, at most, in each half. */
  function Growth(rho: real, sigma: real): real {
    2.0 + 2.0 * rho + 2.0 * sigma
  }

  lemma GrowthTimes(rho: real, sigma: real, t: real, rt: real, st: real)
    requires rt == rho * t && st == sigma * t
    ensures Growth(rho, sigma) * t == 2.0 * t + 2.0 * rt + 2.0 * st
  {
  }

  lemma Scaled(r: real, x: real, t: real, rx: real, rt: real)
    requires r >= 0.0 && -t <= x <= t && rx == r * x && rt == r * t
    ensures -rt <= rx <= rt && rt >= 0.0
  {
    NonNegative(r, t - x, rt - rx);
    NonNegative(r, t + x, rt + rx);
  }

  lemma MidwayIsSmall(s: Swing, rho: real, sigma: real, t: real, far: real)
    requires rho > 0.0 && sigma > 0.0 && rho * sigma == 1.0 && Small(s, t) && far == Growth(rho, sigma) * t
    ensures Small(Midway(s, rho, sigma), far) && t <= far
  {
    var m, rt, st := Midway(s, rho, sigma), rho * t, sigma * t;
    var sx := sigma * m.x;
    GrowthTimes(rho, sigma, t, rt, st);
    Scaled(sigma, t, t, st, st);
    MidwayOffset(s, rho, sigma, t, rt);
    MidwayTaught(m.x, rho, sigma, t, rt, sx, st);
    assert m.g == s.g + sx / 16.0;
    hide *;
    TaughtFits(s, m, t, sx, rt, st, far);
  }

  lemma MidwayOffset(s: Swing, rho: real, sigma: real, t: real, rt: real)
    requires rho > 0.0 && Small(s, t) && rt == rho * t
    ensures rt >= 0.0 && -(t + 3.0 / 2.0 * rt) <= Midway(s, rho, sigma).x <= t + 3.0 / 2.0 * rt
  {
    var m, rx, rg := Midway(s, rho, sigma), rho * s.x, rho * s.g;
    assert m.x == s.x - rx / 2.0 - rg;
    Scaled(rho, s.x, t, rx, rt);
    Scaled(rho, s.g, t, rg, rt);
    hide *;
    MidwayFits(s, m, t, rx, rg, rt);
  }

  lemma MidwayTaught(x: real, rho: real, sigma: real, t: real, rt: real, sx: real, st: real)
    requires sigma > 0.0 && rho * sigma == 1.0 && rt == rho * t && sx == sigma * x && st == sigma * t
    requires -(t + 3.0 / 2.0 * rt) <= x <= t + 3.0 / 2.0 * rt
    ensures -(st + 3.0 / 2.0 * t) <= sx <= st + 3.0 / 2.0 * t
  {
    var u := t + 3.0 / 2.0 * rt;
    var su := sigma * u;
    TwoTerms(sigma, t, rho, rt, u);
    Scaled(sigma, x, u, sx, su);
  }

  lemma MidwayFits(s: Swing, m: Swing, t: real, rx: real, rg: real, rt: real)
    requires Small(s, t) && -rt <= rx <= rt && -rt <= rg <= rt && m.x == s.x - rx / 2.0 - rg
    ensures -(t + 3.0 / 2.0 * rt) <= m.x <= t + 3.0 / 2.0 * rt
  {
  }

  lemma TaughtFits(s: Swing, m: Swing, t: real, sx: real, rt: real, st: real, far: real)
    requires Small(s, t) && -(t + 3.0 / 2.0 * rt) <= m.x <= t + 3.0 / 2.0 * rt && m.g == s.g + sx / 16.0
    requires -(st + 3.0 / 2.0 * t) <= sx <= st + 3.0 / 2.0 * t && rt >= 0.0 && st >= 0.0
    requires far == 2.0 * t + 2.0 * rt + 2.0 * st
    ensures Small(m, far) && t <= far
  {
  }

  lemma TwoTerms(sigma: real, t: real, rho: real, rt: real, u: real)
    requires rho * sigma == 1.0 && rt == rho * t && u == t + 3.0 / 2.0 * rt
    ensures sigma * u == sigma * t + 3.0 / 2.0 * t
  {
    Through(sigma, rho, t);
    assert sigma * (t + 3.0 / 2.0 * rt) == sigma * t + 3.0 / 2.0 * (sigma * rt);
  }

  lemma PairedIsSmall(m: Swing, rho: real, sigma: real, t: real, far: real)
    requires rho > 0.0 && sigma > 0.0 && Small(m, t) && far == Growth(rho, sigma) * t
    ensures Small(HalfOn(m, sigma), far)
  {
    var l, rt, st, sx := HalfOn(m, sigma), rho * t, sigma * t, sigma * m.x;
    assert l.x == m.x - sx / 2.0 - m.g && l.g == m.g + l.x / 16.0;
    GrowthTimes(rho, sigma, t, rt, st);
    Scaled(rho, t, t, rt, rt);
    Scaled(sigma, m.x, t, sx, st);
    hide *;
    PairedFits(m, l, t, sx, rt, st, far);
  }

  lemma PairedFits(m: Swing, l: Swing, t: real, sx: real, rt: real, st: real, far: real)
    requires Small(m, t) && -st <= sx <= st && rt >= 0.0 && st >= 0.0 && far == 2.0 * t + 2.0 * rt + 2.0 * st
    requires l.x == m.x - sx / 2.0 - m.g && l.g == m.g + l.x / 16.0
    ensures Small(l, far)
  {
  }

  /** With no error in the crystal, a next state this small is reached without a clamp. */
  lemma SmallIsClear(l: Loop, nu: real, b: real, x: real)
    requires nu >= 0.25 && b >= 0.25 && l.plant.error == 0.0 && x == l.plant.Advance(nu).Measured()
    requires -TINY <= x <= TINY && -TINY <= (Drift(l) + x / 16.0 / nu) * b <= TINY
    ensures Clear(l, nu)
  {
    var w, h := l.servo.frequency + x / 16.0 / nu, x / (2.0 * nu);
    assert Drift(l) + x / 16.0 / nu == w;
    assert h * (2.0 * nu) == x;
    PerSecond(w, b, TINY);
    PerSecond(h, 2.0 * nu, TINY);
    ClearWhen(l, nu, x, w);
  }

  lemma PerSecond(w: real, b: real, t: real)
    requires b >= 0.25 && t >= 0.0 && -t <= w * b <= t
    ensures -4.0 * t <= w <= 4.0 * t
  {
    AtMost(4.0 * t, 0.25, b);
    if w > 4.0 * t {
      ScaleOrder(4.0 * t, w, b);
    } else if w < -4.0 * t {
      ScaleOrder(w, -4.0 * t, b);
    }
  }

  lemma FirstIsClear(l: Loop, a: real, b: real)
    requires Intervals(a, b) && Regular(l, b) && l.plant.error == 0.0
    requires Small(Midway(AsSwing(l, b), Ratio(a, b), Ratio(b, a)), TINY)
    ensures Clear(l, a)
  {
    hide Loop.X, Ratio;
    var x := l.plant.Advance(a).Measured();
    var d := Drift(l) + x / 16.0 / a;
    NextAfter(l, b, a);
    FirstHalf(l.X(), Drift(l), x, d, a, b);
    assert Midway(AsSwing(l, b), Ratio(a, b), Ratio(b, a)) == Swing(x, d * b);
    SmallIsClear(l, a, b, x);
  }

  lemma SecondIsClear(m: Loop, a: real, b: real)
    requires Intervals(a, b) && Regular(m, a) && m.plant.error == 0.0
    requires Small(HalfOn(AsSwing(m, b), Ratio(b, a)), TINY)
    ensures Clear(m, b)
  {
    hide Loop.X, Ratio;
    var x := m.plant.Advance(b).Measured();
    var d := Drift(m) + x / 16.0 / b;
    NextAfter(m, a, b);
    SecondHalf(m.X(), Drift(m), x, d, a, b);
    assert HalfOn(AsSwing(m, b), Ratio(b, a)) == Swing(x, d * b);
    SmallIsClear(m, b, b, x);
  }

  lemma SmallPairIsClear(l: Loop, a: real, b: real, t: real, near: real, far: real, root: real -> real)
    requires Intervals(a, b) && Regular(l, b) && l.plant.error == 0.0 && Small(AsSwing(l, b), t)
    requires near == Growth(Ratio(a, b), Ratio(b, a)) * t && far == Growth(Ratio(a, b), Ratio(b, a)) * near && far <= TINY
    ensures ClearPair(l, a, b, root)
    ensures var l' := Cycle(Cycle(l, a, root), b, root);
            Regular(l', b) && l'.plant.error == 0.0 && Small(AsSwing(l', b), far)
  {
    hide Loop.X, Regular, Cycle, Clear, Small, AsSwing, Midway, HalfOn, Growth, Ratio;
    InverseRatios(a, b);
    var s, rho, sigma := AsSwing(l, b), Ratio(a, b), Ratio(b, a);
    MidwayIsSmall(s, rho, sigma, t, near);
    SmallIsNonNegative(Midway(s, rho, sigma), near);
    GrowthIsGrowth(rho, sigma);
    AtMost(near, 1.0, Growth(rho, sigma));
    Widen(Midway(s, rho, sigma), near, TINY);
    FirstIsClear(l, a, b);
    FirstIsLinear(l, a, b, root);
    var m := Cycle(l, a, root);
    PairedIsSmall(AsSwing(m, b), rho, sigma, near, far);
    Widen(HalfOn(AsSwing(m, b), sigma), far, TINY);
    SecondIsClear(m, a, b);
    PairIsLinear(l, a, b, root);
  }

  lemma Widen(s: Swing, t: real, far: real)
    requires Small(s, t) && t <= far
    ensures Small(s, far)
  {
  }

  lemma InverseRatios(a: real, b: real)
    requires a > 0.0 && b > 0.0
    ensures Ratio(a, b) > 0.0 && Ratio(b, a) > 0.0 && Ratio(a, b) * Ratio(b, a) == 1.0
  {
    QuotientIsPositive(a, b);
    QuotientIsPositive(b, a);
    var r, q := a / b, b / a;
    assert r * b == a && q * a == b;
    assert r * q * a == r * b;
    Cancel(r * q, 1.0, a);
  }

  /** A start that n pairs cannot take out of reach of the clamps. */
  function Budget(h: real, n: nat): (t: real)
    requires h >= 1.0
    ensures 0.0 < t <= TINY
  {
    if n == 0 then TINY
    else
      BudgetShrinks(h, Budget(h, n - 1));
      Budget(h, n - 1) / h / h
  }

  lemma BudgetShrinks(h: real, t: real)
    requires h >= 1.0 && 0.0 < t
    ensures 0.0 < t / h / h <= t && h * (h * (t / h / h)) == t
  {
    DividedDown(h, t);
    DividedDown(h, t / h);
  }

  lemma DividedDown(h: real, t: real)
    requires h >= 1.0 && 0.0 < t
    ensures 0.0 < t / h <= t && h * (t / h) == t
  {
    QuotientIsPositive(t, h);
    AtMost(t / h, 1.0, h);
  }

  lemma BudgetStep(h: real, n: nat)
    requires h >= 1.0 && n > 0
    ensures h * (h * Budget(h, n)) == Budget(h, n - 1)
  {
    BudgetShrinks(h, Budget(h, n - 1));
  }

  lemma {:induction false} TinyStaysClear(l: Loop, a: real, b: real, h: real, n: nat, k: nat, root: real -> real)
    requires Intervals(a, b) && Regular(l, b) && l.plant.error == 0.0 && k <= n
    requires h == Growth(Ratio(a, b), Ratio(b, a)) && h >= 1.0 && Small(AsSwing(l, b), Budget(h, n))
    ensures Unhindered(l, a, b, k, root)
    ensures var l' := Pairs(l, a, b, k, root);
            Regular(l', b) && l'.plant.error == 0.0 && Small(AsSwing(l', b), Budget(h, n - k))
  {
    hide Regular, Cycle, Loop.X, AsSwing, Small, ClearPair, Budget, Growth, Ratio;
    if k > 0 {
      TinyStaysClear(l, a, b, h, n, k - 1, root);
      BudgetStep(h, n - (k - 1));
      assert n - (k - 1) - 1 == n - k;
      var t := Budget(h, n - (k - 1));
      SmallPairIsClear(Pairs(l, a, b, k - 1, root), a, b, t, h * t, Budget(h, n - k), root);
    }
  }

  // ----- exactly when the loop settles -----

  const LIMIT: real := 1137.0 / 272.0

  ghost predicate Starts(l: Loop, b: real, t: real) {
    Regular(l, b) && Abs(l.X()) <= t && Abs(Drift(l) * b) <= t
  }

  predicate IsShare(x: real, share: real, t: real) {
    Abs(x) <= share * t
  }

  /** After k pairs without a clamp touched, no offset is more than `share` of what the run began with. */
  ghost predicate KeepsShare(a: real, b: real, root: real -> real, share: real, k: nat)
    requires a > 0.0 && b > 0.0
  {
    forall l: Loop, t: real :: Starts(l, b, t) && Unhindered(l, a, b, k, root)
                               ==> IsShare(Pairs(l, a, b, k, root).X(), share, t)
  }

  ghost predicate KeepsShareFrom(a: real, b: real, root: real -> real, share: real, n: nat)
    requires a > 0.0 && b > 0.0
  {
    forall k: nat :: n <= k ==> KeepsShare(a, b, root, share, k)
  }

  ghost predicate Eventually(a: real, b: real, root: real -> real, share: real)
    requires a > 0.0 && b > 0.0
  {
    exists n: nat :: KeepsShareFrom(a, b, root, share, n)
  }

  /** Whatever share of its start one asks for, from some pair on no run has more than that left. */
  ghost predicate Settles(a: real, b: real, root: real -> real)
    requires a > 0.0 && b > 0.0
  {
    forall share: real :: share > 0.0 ==> Eventually(a, b, root, share)
  }

  lemma SumIsAtLeastTwo(rho: real, sigma: real)
    requires rho > 0.0 && rho * sigma == 1.0
    ensures rho + sigma >= 2.0
  {
    Square(rho - 1.0, rho * rho - 2.0 * rho + 1.0);
    assert (rho + sigma - 2.0) * rho == rho * rho + 1.0 - 2.0 * rho;
    SignOfScaled(rho + sigma - 2.0, rho);
  }

  /** n units are what is needed. */
  predicate Reaches(n: nat, unit: real, need: real) {
    n as real * unit >= need
  }

  lemma LongEnough(need: real, unit: real) returns (n: nat)
    requires unit > 0.0
    ensures Reaches(n, unit, need)
  {
    var q := need / unit;
    assert q * unit == need;
    n := if q <= 0.0 then 0 else q.Floor + 1;
    AtMost(unit, q, n as real);
  }

  lemma Longer(n: nat, k: nat, unit: real, need: real)
    requires unit > 0.0 && n <= k && Reaches(n, unit, need)
    ensures Reaches(k, unit, need)
  {
    AtMost(unit, n as real, k as real);
  }

  lemma SettlesBelow(a: real, b: real, root: real -> real)
    requires Intervals(a, b) && Ratio(a, b) + Ratio(b, a) < LIMIT
    ensures Settles(a, b, root)
  {
    forall share: real | share > 0.0
      ensures Eventually(a, b, root, share)
    {
      var n := ShareReached(a, b, root, share);
    }
  }

  /** How much larger the second offset can be than the start. */
  function Reach(rho: real, sigma: real): real {
    Abs(OfOffset(rho, sigma)) + Abs(OfDrift(rho))
  }

  /** Intervals in a ratio and its inverse that the loop settles under. */
  predicate Calming(rho: real, sigma: real) {
    rho * sigma == 1.0 && Contracts(Trace(rho + sigma), Product(rho + sigma))
  }

  /** After k pairs the offset, squared, is at most the start's by a factor that k outgrows. */
  predicate FadesTo(x: real, least: real, unit: real, need: real, k: nat, size: real) {
    (least + k as real * unit) * (x * x) <= need * (size * size)
  }

  ghost predicate Fades(rho: real, sigma: real, least: real, unit: real, need: real) {
    && least > 0.0 && unit > 0.0
    && forall s: Swing, size: real, k: nat :: Small(s, size)
         ==> FadesTo(Swung(s, rho, sigma, k).x, least, unit, need, k, size)
  }

  /** Every sequence that follows the recurrence fades, with these constants. */
  ghost predicate Fading(trace: real, product: real, l: real, e: real, m: real) {
    && l > 0.0 && e > 0.0 && m > 0.0
    && forall x: nat -> real, k: nat :: Follows(x, trace, product) ==> FadesBy(x, l, e, m, k)
  }

  predicate FadesBy(x: nat -> real, l: real, e: real, m: real, k: nat) {
    l * (1.0 + k as real * e) * (x(k) * x(k)) <= m * Squares(x(0), x(1))
  }

  lemma RecurrenceFades(trace: real, product: real) returns (l: real, e: real, m: real)
    requires Contracts(trace, product)
    ensures Fading(trace, product, l, e, m)
  {
    hide Loss, Most, Pace, Contracts, Squares, Follows;
    l, e, m := Loss(trace, product), Pace(trace, product), Most(trace, product);
    PaceIsPositive(trace, product);
    forall x: nat -> real, k: nat | Follows(x, trace, product)
      ensures FadesBy(x, l, e, m, k)
    {
      OffsetFades(x, trace, product, k);
    }
  }

  lemma FadingConstants(rho: real, sigma: real) returns (least: real, unit: real, need: real)
    requires Calming(rho, sigma)
    ensures Fades(rho, sigma, least, unit, need)
  {
    hide Trace, Product, Contracts, Reach, Swung, Small, FadesTo;
    var reach := Reach(rho, sigma);
    var l, e, m := RecurrenceFades(Trace(rho + sigma), Product(rho + sigma));
    least, unit, need := l, l * e, m * (1.0 + reach * reach);
    ProductIsPositive(l, e, unit);
    forall s: Swing, size: real, k: nat | Small(s, size)
      ensures FadesTo(Swung(s, rho, sigma, k).x, least, unit, need, k, size)
    {
      hide Fading;
      SwingFades(s, rho, sigma, k, size, l, e, m, reach, unit, need);
    }
  }

  lemma SwingFades(s: Swing, rho: real, sigma: real, k: nat, size: real,
                   l: real, e: real, m: real, reach: real, unit: real, need: real)
    requires rho * sigma == 1.0 && Fading(Trace(rho + sigma), Product(rho + sigma), l, e, m) && Small(s, size)
    requires reach == Reach(rho, sigma) && unit == l * e && need == m * (1.0 + reach * reach)
    ensures FadesTo(Swung(s, rho, sigma, k).x, l, unit, need, k, size)
  {
    hide Trace, Product, Swung, Squares, Reach, Small, FadesTo;
    var x := Offsets(s, rho, sigma);
    OffsetsFollow(s, rho, sigma);
    assert FadesBy(x, l, e, m, k);
    FirstOffsets(s, rho, sigma, size);
    assert x(k) == Swung(s, rho, sigma, k).x;
    FadesFromSquares(l, e, m, 1.0 + reach * reach, Squares(x(0), x(1)), k, x(k), size, unit, need);
  }

  lemma FadesFromSquares(l: real, e: real, m: real, spread: real, first: real, k: nat, x: real, size: real,
                         unit: real, need: real)
    requires m > 0.0 && l * (1.0 + k as real * e) * (x * x) <= m * first && first <= spread * (size * size)
    requires unit == l * e && need == m * spread
    ensures FadesTo(x, l, unit, need, k, size)
  {
    var n, ss := k as real, size * size;
    AtMost(m, first, spread * ss);
    Associated(m, spread, ss);
    assert l + n * (l * e) == l * (1.0 + n * e);
  }

  lemma ShareReached(a: real, b: real, root: real -> real, share: real) returns (n: nat)
    requires Intervals(a, b) && Ratio(a, b) + Ratio(b, a) < LIMIT && share > 0.0
    ensures KeepsShareFrom(a, b, root, share, n)
  {
    var rho, sigma := Ratio(a, b), Ratio(b, a);
    InverseRatios(a, b);
    hide Ratio;
    SumIsAtLeastTwo(rho, sigma);
    assert Calming(rho, sigma);
    hide Calming, Reaches;
    var least, unit, need := FadingConstants(rho, sigma);
    var scaled := unit * (share * share);
    ThreePositive(1.0, unit, share, scaled);
    hide Fades;
    n := LongEnough(need, scaled);
    FromThere(a, b, root, share, n, least, unit, need, scaled);
  }

  lemma FromThere(a: real, b: real, root: real -> real, share: real, n: nat, least: real, unit: real, need: real, scaled: real)
    requires Intervals(a, b) && Fades(Ratio(a, b), Ratio(b, a), least, unit, need) && share > 0.0
    requires scaled == unit * (share * share) && scaled > 0.0 && Reaches(n, scaled, need)
    ensures KeepsShareFrom(a, b, root, share, n)
  {
    hide Fades, Reaches, Starts, Unhindered, Pairs, Ratio, IsShare, Loop.X;
    forall k: nat | n <= k
      ensures KeepsShare(a, b, root, share, k)
    {
      Longer(n, k, scaled, need);
      forall l: Loop, size: real | Starts(l, b, size) && Unhindered(l, a, b, k, root)
        ensures IsShare(Pairs(l, a, b, k, root).X(), share, size)
      {
        ShareKept(l, a, b, root, share, k, size, least, unit, need, scaled);
      }
    }
  }

  lemma ThreePositive(a: real, b: real, c: real, product: real)
    requires a > 0.0 && b > 0.0 && c > 0.0 && product == a * (b * (c * c))
    ensures product > 0.0
  {
    var cc := c * c;
    ProductIsPositive(c, c, cc);
    var bcc := b * cc;
    ProductIsPositive(b, cc, bcc);
    ProductIsPositive(a, bcc, product);
  }

  lemma ShareKept(l: Loop, a: real, b: real, root: real -> real, share: real, k: nat, size: real,
                  least: real, unit: real, need: real, scaled: real)
    requires Intervals(a, b) && Fades(Ratio(a, b), Ratio(b, a), least, unit, need) && share > 0.0
    requires Starts(l, b, size) && Unhindered(l, a, b, k, root)
    requires scaled == unit * (share * share) && Reaches(k, scaled, need)
    ensures IsShare(Pairs(l, a, b, k, root).X(), share, size)
  {
    hide Reaches, Regular, Loop.X, Swung, Pairs, Ratio, IsShare, Drift, FadesTo;
    RunIsLinear(l, a, b, k, root);
    SwingOffset(Pairs(l, a, b, k, root), b);
    assert Small(AsSwing(l, b), size);
    SmallIsNonNegative(AsSwing(l, b), size);
    ShareOfFading(Swung(AsSwing(l, b), Ratio(a, b), Ratio(b, a), k).x, least, unit, need, k, size, share, scaled);
  }

  lemma SmallIsNonNegative(s: Swing, size: real)
    requires Small(s, size)
    ensures size >= 0.0
  {
  }

  lemma FirstOffsets(s: Swing, rho: real, sigma: real, size: real)
    requires rho * sigma == 1.0 && Small(s, size)
    ensures var x, reach := Offsets(s, rho, sigma), Reach(rho, sigma);
            Squares(x(0), x(1)) <= (1.0 + reach * reach) * (size * size)
  {
    hide Paired, OfOffset, OfDrift, Squares;
    var x, p, r := Offsets(s, rho, sigma), OfOffset(rho, sigma), OfDrift(rho);
    NextSwung(s, rho, sigma, 0);
    Coefficients(s, rho, sigma);
    assert x(0) == s.x && x(1) == p * s.x + r * s.g;
    SecondIsWithin(p, r, s.x, s.g, size, Reach(rho, sigma));
    FirstSquares(x(0), x(1), size, Reach(rho, sigma));
  }

  lemma SecondIsWithin(p: real, r: real, x: real, g: real, size: real, reach: real)
    requires reach == Abs(p) + Abs(r) && -size <= x <= size && -size <= g <= size
    ensures -reach * size <= p * x + r * g <= reach * size
  {
    AbsTimes(p, x, size);
    AbsTimes(r, g, size);
    assert (Abs(p) + Abs(r)) * size == Abs(p) * size + Abs(r) * size;
  }

  lemma AbsTimes(p: real, x: real, size: real)
    requires -size <= x <= size
    ensures -(Abs(p) * size) <= p * x <= Abs(p) * size
  {
    if p >= 0.0 {
      Times(p, x, size);
    } else {
      Times(-p, -x, size);
      assert -p * -x == p * x;
    }
  }

  lemma ShareOfFading(x: real, least: real, unit: real, need: real, k: nat, size: real, share: real, scaled: real)
    requires least > 0.0 && unit > 0.0 && size >= 0.0 && share > 0.0
    requires scaled == unit * (share * share) && Reaches(k, scaled, need) && FadesTo(x, least, unit, need, k, size)
    ensures IsShare(x, share, size)
  {
    var n, far, ss := k as real, share * size, size * size;
    var ff, xx, grown := far * far, x * x, least + n * unit;
    NonNegative(share, size, far);
    Square(size, ss);
    Square(far, ff);
    NonNegative(n, unit, n * unit);
    AtMost(ss, need, n * scaled);
    assert ss * (n * scaled) == n * unit * ff;
    AtMost(ff, n * unit, grown);
    assert (ff - xx) * grown == ff * grown - grown * xx;
    SignOfScaled(ff - xx, grown);
    RootBound(x, far);
  }

  /** A loop with a perfect crystal, tuned for b, its offset x and its drift over b seconds g. */
  function StartAt(x: real, g: real, b: real): Loop
    requires b > 0.0
  {
    Loop(Plant(0.0, g / b + x / (2.0 * b), -x), Servo(Settling, g / b, 0.0, Some(0.0), x, None, 0.0, 1, 0.0), 0.0)
  }

  /** The share of its start that some run never gets below. */
  function StubbornShare(rho: real, sigma: real): real
    requires rho > 0.0
  {
    1.0 / (2.0 * Max(1.0, Abs(Tilt(rho, sigma))))
  }

  lemma NeverSettlesAbove(a: real, b: real, root: real -> real)
    requires Intervals(a, b) && Ratio(a, b) + Ratio(b, a) >= LIMIT
    ensures !Settles(a, b, root)
  {
    InverseRatios(a, b);
    assert Unsettling(Ratio(a, b), Ratio(b, a));
    hide *;
    ShareIsPositive(Ratio(a, b), Ratio(b, a));
    if Settles(a, b, root) {
      var n := SomePair(a, b, root, StubbornShare(Ratio(a, b), Ratio(b, a)));
      var l, t := StubbornRun(a, b, n, root);
      NotKept(l, a, b, n, root, t);
      assert false;
    }
  }

  lemma SomePair(a: real, b: real, root: real -> real, share: real) returns (n: nat)
    requires a > 0.0 && b > 0.0 && Settles(a, b, root) && share > 0.0
    ensures KeepsShare(a, b, root, share, n)
  {
    hide KeepsShare;
    assert Eventually(a, b, root, share);
    n :| KeepsShareFrom(a, b, root, share, n);
  }

  lemma NotKept(l: Loop, a: real, b: real, n: nat, root: real -> real, t: real)
    requires a > 0.0 && b > 0.0 && Ratio(a, b) > 0.0 && Starts(l, b, t) && Unhindered(l, a, b, n, root)
    requires KeepsMore(Pairs(l, a, b, n, root).X(), Ratio(a, b), Ratio(b, a), t)
    ensures !KeepsShare(a, b, root, StubbornShare(Ratio(a, b), Ratio(b, a)), n)
  {
    hide Ratio, StubbornShare, Starts, Unhindered, Pairs, Loop.X;
  }

  lemma ShareIsPositive(rho: real, sigma: real)
    requires rho > 0.0
    ensures StubbornShare(rho, sigma) > 0.0
    ensures StubbornShare(rho, sigma) * (2.0 * Max(1.0, Abs(Tilt(rho, sigma)))) == 1.0
  {
    hide Tilt;
    QuotientIsPositive(1.0, 2.0 * Max(1.0, Abs(Tilt(rho, sigma))));
  }

  /** The drift, over the offset, from which the first pair turns the offset round. */
  function Tilt(rho: real, sigma: real): real
    requires rho > 0.0
  {
    (OfOffset(rho, sigma) + 1.0) / -OfDrift(rho)
  }

  predicate KeepsMore(x: real, rho: real, sigma: real, t: real)
    requires rho > 0.0
  {
    Abs(x) > StubbornShare(rho, sigma) * t
  }

  /** A state from which the first pair does no more than turn the offset round. */
  predicate IsStubborn(s: Swing, rho: real, sigma: real, t: real)
    requires rho > 0.0
  {
    Small(s, t) && s.x > StubbornShare(rho, sigma) * t && s.x > 0.0 && s.g == Tilt(rho, sigma) * s.x
  }

  /** The two intervals are in a ratio and its inverse that the loop cannot settle under. */
  predicate Unsettling(rho: real, sigma: real) {
    rho > 0.0 && sigma > 0.0 && rho * sigma == 1.0 && rho + sigma >= LIMIT
  }

  /** A run that starts small enough to meet no clamp in n pairs, and has all of its offset left after them. */
  lemma StubbornRun(a: real, b: real, n: nat, root: real -> real) returns (l: Loop, t: real)
    requires Intervals(a, b) && Unsettling(Ratio(a, b), Ratio(b, a))
    ensures Starts(l, b, t) && Unhindered(l, a, b, n, root)
    ensures KeepsMore(Pairs(l, a, b, n, root).X(), Ratio(a, b), Ratio(b, a), t)
  {
    GrowthIsGrowth(Ratio(a, b), Ratio(b, a));
    hide Ratio, Growth, Budget, Small, AsSwing, Regular, Loop.X, Swung, Pairs, StartAt, Starts, Unhindered, KeepsMore,
         IsStubborn, Tilt, StubbornShare;
    t := Budget(Growth(Ratio(a, b), Ratio(b, a)), n);
    var s := StubbornStart(Ratio(a, b), Ratio(b, a), t);
    l := StartAt(s.x, s.g, b);
    StartIsRegular(s.x, s.g, a, b);
    hide Unsettling;
    StubbornSwing(s, Ratio(a, b), Ratio(b, a), t, n);
    StubbornIsSmall(s, Ratio(a, b), Ratio(b, a), t);
    StartsSmall(l, b, t);
    TinyRun(l, a, b, Ratio(a, b), Ratio(b, a), n, root);
  }

  lemma StubbornIsSmall(s: Swing, rho: real, sigma: real, t: real)
    requires rho > 0.0 && IsStubborn(s, rho, sigma, t)
    ensures Small(s, t)
  {
  }

  lemma GrowthIsGrowth(rho: real, sigma: real)
    requires rho > 0.0 && sigma > 0.0
    ensures Growth(rho, sigma) >= 1.0
  {
  }

  lemma TinyRun(l: Loop, a: real, b: real, rho: real, sigma: real, n: nat, root: real -> real)
    requires Intervals(a, b) && Regular(l, b) && l.plant.error == 0.0 && rho == Ratio(a, b) && sigma == Ratio(b, a)
    requires Growth(rho, sigma) >= 1.0 && Small(AsSwing(l, b), Budget(Growth(rho, sigma), n))
    ensures Unhindered(l, a, b, n, root)
    ensures Pairs(l, a, b, n, root).X() == Swung(AsSwing(l, b), rho, sigma, n).x
  {
    hide Ratio, Growth, Small, AsSwing, Regular, Loop.X, Swung, Pairs, Budget;
    TinyStaysClear(l, a, b, Growth(rho, sigma), n, n, root);
    RunIsLinear(l, a, b, n, root);
    SwingOffset(Pairs(l, a, b, n, root), b);
  }

  lemma StubbornStart(rho: real, sigma: real, t: real) returns (s: Swing)
    requires rho > 0.0 && t > 0.0
    ensures IsStubborn(s, rho, sigma, t)
  {
    var tilt, share := Tilt(rho, sigma), StubbornShare(rho, sigma);
    ShareIsPositive(rho, sigma);
    hide Tilt, StubbornShare;
    var size := Max(1.0, Abs(tilt));
    var c := t / size;
    assert c * size == t;
    s := Swing(c, tilt * c);
    StartIsSmall(c, tilt, size, t, s.g);
    HalfShare(c, size, share, t);
  }

  lemma HalfShare(c: real, size: real, share: real, t: real)
    requires size > 0.0 && share * (2.0 * size) == 1.0 && c * size == t
    ensures share * t == c / 2.0
  {
    assert share * (c * size) == share * (2.0 * size) * (c / 2.0);
  }

  lemma SwingOffset(l: Loop, b: real)
    ensures AsSwing(l, b).x == l.X()
  {
  }

  lemma StartsSmall(l: Loop, b: real, t: real)
    requires Regular(l, b) && Small(AsSwing(l, b), t)
    ensures Starts(l, b, t)
  {
    hide Regular, Loop.X;
  }

  lemma StartIsRegular(c: real, g: real, a: real, b: real)
    requires Intervals(a, b)
    ensures var l := StartAt(c, g, b);
            Regular(l, b) && l.plant.error == 0.0 && AsSwing(l, b) == Swing(c, g)
  {
    var q := g / b;
    assert q * b == g;
  }

  lemma StubbornSwing(s: Swing, rho: real, sigma: real, t: real, n: nat)
    requires Unsettling(rho, sigma) && IsStubborn(s, rho, sigma, t)
    ensures KeepsMore(Swung(s, rho, sigma, n).x, rho, sigma, t)
  {
    hide Swung, Tilt, StubbornShare;
    FirstTurn(s, rho, sigma, Tilt(rho, sigma));
    OffsetsFollow(s, rho, sigma);
    NeverFades(Offsets(s, rho, sigma), Trace(rho + sigma), Product(rho + sigma), s.x, n);
    assert Offsets(s, rho, sigma)(n) == Swung(s, rho, sigma, n).x;
  }

  lemma StartIsSmall(c: real, tilt: real, size: real, budget: real, g: real)
    requires size == Max(1.0, Abs(tilt)) && c * size == budget && budget > 0.0 && g == tilt * c
    ensures c > 0.0 && Small(Swing(c, g), budget)
  {
    if c <= 0.0 {
      NonNegative(-c, size, -budget);
    }
    Scaled(c, 1.0, size, c, budget);
    Scaled(c, tilt, size, g, budget);
    hide *;
    MakeSmall(c, g, budget);
  }

  lemma MakeSmall(x: real, g: real, t: real)
    requires 0.0 <= x <= t && -t <= g <= t
    ensures Small(Swing(x, g), t)
  {
  }

  lemma FirstTurn(s: Swing, rho: real, sigma: real, tilt: real)
    requires rho > 0.0 && rho * sigma == 1.0 && tilt == Tilt(rho, sigma) && s.g == tilt * s.x
    ensures Offsets(s, rho, sigma)(0) == s.x && Offsets(s, rho, sigma)(1) == -s.x
  {
    var p, r := OfOffset(rho, sigma), OfDrift(rho);
    NextSwung(s, rho, sigma, 0);
    Coefficients(s, rho, sigma);
    assert tilt * -r == p + 1.0;
    Turned(p, r, tilt, s.x, s.g);
    assert Offsets(s, rho, sigma)(1) == p * s.x + r * s.g;
  }

  lemma Turned(p: real, r: real, tilt: real, x: real, g: real)
    requires tilt * -r == p + 1.0 && g == tilt * x
    ensures p * x + r * g == -x
  {
    assert r * g == -(tilt * -r) * x;
  }

  /** Exactly when the loop settles while its interval alternates between a and b. */
  lemma SettlesExactly(a: real, b: real, root: real -> real)
    requires Intervals(a, b)
    ensures Settles(a, b, root) <==> a / b + b / a < LIMIT
  {
    hide Settles;
    if a / b + b / a < LIMIT {
      SettlesBelow(a, b, root);
    } else {
      NeverSettlesAbove(a, b, root);
    }
  }
}
