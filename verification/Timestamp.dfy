/**
 NTP's 32.32 fixed-point time: wrapping 64-bit timestamps, saturating signed
 intervals, and the choice of era against a time already believed.
 */
module Timestamp {

  const SECOND: int := 0x1_0000_0000
  const ERA: int := 0x1_0000_0000_0000_0000
  const HALF_ERA: int := 0x8000_0000_0000_0000
  const UNIX_TO_NTP_ERA0: int := 2_208_988_800
  const NANOS: int := 1_000_000_000

  /** A u64. */
  type NtpTime = t: int | 0 <= t < ERA

  /** An i64. */
  type Duration = d: int | -HALF_ERA <= d < HALF_ERA

  function AsSigned(t: NtpTime): Duration {
    if t < HALF_ERA then t else t - ERA
  }

  function WrappingSub(later: NtpTime, earlier: NtpTime): Duration {
    AsSigned((later - earlier) % ERA)
  }

  function WrappingAdd(t: NtpTime, d: Duration): NtpTime {
    (t + d) % ERA
  }

  function Saturate(x: int): Duration {
    if x >= HALF_ERA then HALF_ERA - 1 else if x < -HALF_ERA then -HALF_ERA else x
  }

  function Seconds(d: Duration): real {
    d as real / SECOND as real
  }

  /** Floor division, as `div_euclid` by a positive divisor. */
  function WholeSeconds(d: Duration): int {
    d / SECOND
  }

  function SubsecNanos(d: Duration): nat {
    (d % SECOND) * NANOS / SECOND
  }

  function Fraction(nanos: nat): nat {
    (if nanos < NANOS then nanos else NANOS - 1) * SECOND / NANOS
  }

  function FromUnix(seconds: int, nanos: nat): NtpTime {
    FractionFits(nanos);
    (seconds + UNIX_TO_NTP_ERA0) % SECOND * SECOND + Fraction(nanos)
  }

  function ToUnixNear(t: NtpTime, near: int): (int, nat) {
    var delta := WrappingSub(t, FromUnix(near, 0));
    (near + WholeSeconds(delta), SubsecNanos(delta))
  }

  lemma FractionFits(nanos: nat)
    ensures 0 <= Fraction(nanos) < SECOND
  {
  }

  /** Differences do not know which era they are in. */
  lemma SubShiftInvariant(a: NtpTime, b: NtpTime, c: int)
    ensures WrappingSub((a + c) % ERA, (b + c) % ERA) == WrappingSub(a, b)
  {
    var p, q := (a + c) / ERA, (b + c) / ERA;
    assert (a + c) % ERA - (b + c) % ERA == (a - b) - (p - q) * ERA;
    ModEqual((a + c) % ERA - (b + c) % ERA, a - b, p - q);
  }

  lemma ModEqual(x: int, y: int, k: int)
    requires x == y - k * ERA
    ensures x % ERA == y % ERA
  {
  }

  /** Reading unbounded times through the 64-bit window loses nothing of a difference below 68 years. */
  lemma SubExact(a: int, b: int)
    requires -HALF_ERA <= a - b < HALF_ERA
    ensures WrappingSub(a % ERA, b % ERA) == a - b
  {
  }

  /** Adding back an interval undoes taking it, in both orders and across eras. */
  lemma AddUndoesSub(a: NtpTime, b: NtpTime, d: Duration)
    ensures WrappingAdd(b, WrappingSub(a, b)) == a
    ensures WrappingSub(WrappingAdd(b, d), b) == d
  {
  }

  lemma FromUnixDifference(s: int, n: nat, near: int)
    requires -0x8000_0000 <= s - near < 0x8000_0000
    ensures WrappingSub(FromUnix(s, n), FromUnix(near, 0)) == (s - near) * SECOND + Fraction(n)
  {
    FractionFits(n);
    var p, q := (s + UNIX_TO_NTP_ERA0) / SECOND, (near + UNIX_TO_NTP_ERA0) / SECOND;
    var diff := FromUnix(s, n) - FromUnix(near, 0);
    assert diff == (s - near) * SECOND + Fraction(n) - (p - q) * ERA;
    ModOf(diff, (s - near) * SECOND + Fraction(n), p - q);
  }

  lemma ModOf(x: int, y: int, k: int)
    requires x == y - k * ERA && -HALF_ERA <= y < HALF_ERA
    ensures AsSigned(x % ERA) == y
  {
    assert x % ERA == y % ERA;
  }

  /** A nanosecond count survives the binary fraction exactly, or loses one. */
  lemma FractionRoundTrip(n: nat)
    requires n < NANOS
    ensures Fraction(n) * NANOS / SECOND == if n % 1_953_125 == 0 then n else n - 1
  {
    var f := Fraction(n);
    assert f * NANOS <= n * SECOND < f * NANOS + NANOS;
    if n % 1_953_125 == 0 {
      var k := n / 1_953_125;
      assert n * SECOND == k * 8_388_608 * NANOS;
    } else if f * NANOS == n * SECOND {
      FiveDivides(n, f);
    }
  }

  /** 10^9 = 2^9 * 5^9 and 5 does not divide 2^32, so only multiples of 5^9 are exact. */
  lemma FiveDivides(n: nat, f: nat)
    requires f * NANOS == n * SECOND
    ensures n % 1_953_125 == 0
  {
    assert f * 1_953_125 == n * 8_388_608;
    // Bezout: 1241897 * 2^23 - 5333907 * 5^9 == 1
    assert n == (1241897 * f - 5333907 * n) * 1_953_125;
  }

  lemma SplitSeconds(seconds: int, fraction: int)
    requires 0 <= fraction < SECOND
    ensures (seconds * SECOND + fraction) / SECOND == seconds && (seconds * SECOND + fraction) % SECOND == fraction
  {
  }

  /** In every era: within 68 years of the time believed, the second comes back exactly
      and the nanosecond comes back, or one less, according to whether 2^-32 s can hold it. */
  lemma UnixRoundTrip(s: int, n: nat, near: int)
    requires n < NANOS && -0x8000_0000 <= s - near < 0x8000_0000
    ensures ToUnixNear(FromUnix(s, n), near) == (s, if n % 1_953_125 == 0 then n else n - 1)
  {
    hide FromUnix, Fraction, WrappingSub;
    FractionFits(n);
    FromUnixDifference(s, n, near);
    FractionRoundTrip(n);
    SplitSeconds(s - near, Fraction(n));
  }

  /** Where the scale starts: era 0 at the beginning of 1900, and Unix time 2208988800 seconds later;
      the era after it 2085978496 seconds after that, on 7 February 2036. */
  lemma Anchors()
    ensures FromUnix(-2_208_988_800, 0) == 0 && FromUnix(0, 0) == 2_208_988_800 * 0x1_0000_0000
    ensures FromUnix(2_085_978_496, 0) == 0 && FromUnix(0, 500_000_000) == FromUnix(0, 0) + 0x8000_0000
  {
  }

  /** What does not fit an i64 comes to the nearest that does. */
  lemma SaturateInNumbers(x: int)
    ensures -0x8000_0000_0000_0000 <= x <= 0x7FFF_FFFF_FFFF_FFFF ==> Saturate(x) == x
    ensures x > 0x7FFF_FFFF_FFFF_FFFF ==> Saturate(x) == 0x7FFF_FFFF_FFFF_FFFF
    ensures x < -0x8000_0000_0000_0000 ==> Saturate(x) == -0x8000_0000_0000_0000
  {
  }

  /** More nanoseconds than a second has count as the last of it. */
  lemma OverlongNanos(s: int, n: nat)
    requires n >= 999_999_999
    ensures FromUnix(s, n) == FromUnix(s, 999_999_999)
  {
  }
}
