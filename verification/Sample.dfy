/** One measurement, from the four timestamps of an exchange (section 8 of RFC 5905). */
module Sample {
  import opened Numbers
  import opened Timestamp

  /** RFC 5905's drift allowance, 15 parts per million. */
  const PHI: real := 0.000015

  /** RFC 5905's MINDISP, one millisecond. */
  const MIN_DISPERSION: real := 0.001

  datatype Sample = Sample(offset: real, delay: Span, dispersion: Span, at: real) {
    function AgedDispersion(now: real): Span {
      dispersion + PHI * Max(now - at, 0.0)
    }
  }

  datatype Exchange = Exchange(origin: NtpTime, receive: NtpTime, transmit: NtpTime, destination: NtpTime) {
    /** Every clock in the exchange moved on by the same amount, wrapping. */
    function Shifted(c: int): Exchange {
      Exchange((origin + c) % ERA, (receive + c) % ERA, (transmit + c) % ERA, (destination + c) % ERA)
    }
  }

  datatype SampleError =
    | LocalWentBackwards
    | ServerWentBackwards
    | TooFar(delay: real)

  /** The precision field is log2 seconds in a signed byte, clamped. */
  function Log2Seconds(exponent: int): (r: real)
    ensures 0.0 < r <= 256.0
  {
    var e := if exponent < -32 then -32 else if exponent > 8 then 8 else exponent;
    Pow2Grows(if e >= 0 then e else 0, 8);
    Pow2OfEight();
    if e >= 0 then Pow2(e) else 1.0 / Pow2(-e)
  }

  lemma {:induction false} Pow2Grows(n: nat, m: nat)
    requires n <= m
    ensures Pow2(n) <= Pow2(m)
  {
    if n < m {
      Pow2Grows(n, m - 1);
    }
  }

  lemma Pow2OfEight()
    ensures Pow2(8) == 256.0
  {
    assert Pow2(2) == 4.0;
    assert Pow2(4) == 16.0;
    assert Pow2(6) == 64.0;
  }

  function Reduce(e: Exchange, localPrecision: int, serverPrecision: int, maxDelay: real, at: real)
    : Result<Sample, SampleError>
  {
    var roundTrip := WrappingSub(e.destination, e.origin);
    var serverHeld := WrappingSub(e.transmit, e.receive);
    if roundTrip < 0 then
      Err(LocalWentBackwards)
    else if serverHeld < 0 then
      Err(ServerWentBackwards)
    else
      var delay := Max(Seconds(Saturate(roundTrip - serverHeld)), MIN_DISPERSION);
      if delay > maxDelay then
        Err(TooFar(delay))
      else
        var forward := WrappingSub(e.receive, e.origin);
        var backward := WrappingSub(e.transmit, e.destination);
        var offset := Seconds(Saturate(forward + backward)) / 2.0;
        SecondsNonNegative(roundTrip);
        var dispersion := Log2Seconds(localPrecision) + Log2Seconds(serverPrecision) + PHI * Seconds(roundTrip);
        Ok(Sample(offset, delay, dispersion, at))
  }

  lemma SecondsNonNegative(d: Duration)
    ensures d >= 0 ==> Seconds(d) >= 0.0
  {
  }

  /** A measurement is the same in every era: moving all four clocks by one constant,
      across any number of rollovers, changes neither the numbers nor the refusals. */
  lemma ReduceEraFree(e: Exchange, c: int, localPrecision: int, serverPrecision: int, maxDelay: real, at: real)
    ensures Reduce(e.Shifted(c), localPrecision, serverPrecision, maxDelay, at)
            == Reduce(e, localPrecision, serverPrecision, maxDelay, at)
  {
    hide WrappingSub, Seconds, Saturate, Log2Seconds, Max;
    SubShiftInvariant(e.destination, e.origin, c);
    SubShiftInvariant(e.transmit, e.receive, c);
    SubShiftInvariant(e.receive, e.origin, c);
    SubShiftInvariant(e.transmit, e.destination, c);
  }

  /** Times that never wrap, of which the exchange carries the low 64 bits. */
  datatype TrueTimes = TrueTimes(t1: int, t2: int, t3: int, t4: int) {
    function OnTheWire(): Exchange {
      Exchange(t1 % ERA, t2 % ERA, t3 % ERA, t4 % ERA)
    }

    /** Every interval the measurement uses is below 2^62 units, about 34 years. */
    predicate Near() {
      && -0x4000_0000_0000_0000 < t4 - t1 < 0x4000_0000_0000_0000
      && -0x4000_0000_0000_0000 < t3 - t2 < 0x4000_0000_0000_0000
      && -0x4000_0000_0000_0000 < t2 - t1 < 0x4000_0000_0000_0000
      && -0x4000_0000_0000_0000 < t3 - t4 < 0x4000_0000_0000_0000
    }

    function RoundTrip(): real { (t4 - t1) as real / SECOND as real }
    function Held(): real { (t3 - t2) as real / SECOND as real }
    function Offset(): real { ((t2 - t1) + (t3 - t4)) as real / SECOND as real / 2.0 }
    function OnPath(): real { RoundTrip() - Held() }
    function Delay(): real { Max(OnPath(), MIN_DISPERSION) }
  }

  /** No wrap and no saturation shows: the outcome is the textbook one on unbounded times. */
  lemma ReduceExact(t: TrueTimes, localPrecision: int, serverPrecision: int, maxDelay: real, at: real)
    requires t.Near()
    ensures var r := Reduce(t.OnTheWire(), localPrecision, serverPrecision, maxDelay, at);
            if t.t4 < t.t1 then r == Err(LocalWentBackwards)
            else if t.t3 < t.t2 then r == Err(ServerWentBackwards)
            else if t.Delay() > maxDelay then r == Err(TooFar(t.Delay()))
            else r.Ok? && r.value.offset == t.Offset() && r.value.delay == t.Delay() && r.value.at == at
                 && r.value.dispersion
                    == Log2Seconds(localPrecision) + Log2Seconds(serverPrecision) + PHI * t.RoundTrip()
  {
    SubExact(t.t4, t.t1);
    SubExact(t.t3, t.t2);
    SubExact(t.t2, t.t1);
    SubExact(t.t3, t.t4);
    assert (t.t4 - t.t1) as real - (t.t3 - t.t2) as real == ((t.t4 - t.t1) - (t.t3 - t.t2)) as real;
  }

  /** The precision field in numbers: zero is a second, each step up doubles it, and past -32 or 8 there is no more. */
  lemma Log2InNumbers(e: int)
    ensures Log2Seconds(0) == 1.0
    ensures -32 <= e < 8 ==> Log2Seconds(e + 1) == 2.0 * Log2Seconds(e)
    ensures e <= -32 ==> Log2Seconds(e) == Log2Seconds(-32)
    ensures e >= 8 ==> Log2Seconds(e) == 256.0
  {
    Pow2OfEight();
    if -32 <= e < 0 {
      HalvedTwice(Pow2(-e - 1));
    }
  }

  lemma HalvedTwice(p: real)
    requires p > 0.0
    ensures 1.0 / p == 2.0 * (1.0 / (2.0 * p))
  {
    var h := 1.0 / (2.0 * p);
    assert h * (2.0 * p) == 1.0;
    assert 2.0 * h * p == 1.0;
  }
}
