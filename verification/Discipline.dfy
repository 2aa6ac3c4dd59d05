/**
 The clock discipline: when the clock is stepped, when it is slewed, and how the
 frequency is learned. Times are the local monotonic clock's, in seconds.
 */
module Discipline {
  import opened Numbers

  const STEP_THRESHOLD: real := 0.128
  const PANIC_THRESHOLD: real := 1000.0
  const STEPOUT: real := 900.0
  const MAX_FREQUENCY: real := 0.0005
  const TIME_CONSTANT: real := 4.0
  const FLL_INTERVAL: real := 2048.0

  datatype State = Startup | Settling | Synchronised | Spike

  datatype Adjustment =
    | Rate(rate: real)
    | Step(seconds: real, rate: real)
    | Hold
    | Panic(seconds: real)

  function SaneFrequency(frequency: real): real {
    Clamp(frequency, -MAX_FREQUENCY, MAX_FREQUENCY)
  }

  /** What a rate comes to: 500 parts per million at most, either way. */
  function Limited(rate: real): real {
    if rate > 0.0005 then 0.0005 else if rate < -0.0005 then -0.0005 else rate
  }

  /** The servo's fields, as a value. */
  datatype Servo = Servo(
    state: State, frequency: real, slew: real, lastUpdate: Option<real>, lastOffset: real,
    spikeSince: Option<real>, jitter: real, updates: nat, stepped: real)

  function Fresh(initialFrequency: real): Servo {
    Servo(Startup, SaneFrequency(initialFrequency), 0.0, None, 0.0, None, 0.0, 0, 0.0)
  }

  function PhaseReset(s: Servo): Servo {
    s.(slew := 0.0, lastUpdate := None, lastOffset := 0.0, spikeSince := None,
       state := if s.state == Startup then Startup else Settling)
  }

  /** The phase correction over the settling time t, and the rate asked for. */
  function Slewed(s: Servo, offset: real, t: real): (Servo, Adjustment)
    requires t > 0.0
  {
    var slew := 2.0 * offset / t;
    (s.(slew := slew), Rate(Clamp(s.frequency + slew, -MAX_FREQUENCY, MAX_FREQUENCY)))
  }

  function Updated(s: Servo, offset: real, now: real, root: real -> real): (Servo, Adjustment) {
    if s.state == Startup then FirstUpdate(s, offset, now)
    else if Abs(offset) > PANIC_THRESHOLD then (s, Panic(offset))
    else if Abs(offset) > STEP_THRESHOLD then LargeOffset(s, offset, now)
    else NormalOffset(s, offset, now, root)
  }

  function FirstUpdate(s: Servo, offset: real, now: real): (Servo, Adjustment) {
    var s := s.(lastUpdate := Some(now), lastOffset := offset, state := Settling, updates := s.updates + 1);
    if Abs(offset) > STEP_THRESHOLD then
      (s.(stepped := s.stepped + Abs(offset)), Step(offset, s.frequency))
    else
      Slewed(s, offset, TIME_CONSTANT * 64.0)
  }

  function LargeOffset(s: Servo, offset: real, now: real): (Servo, Adjustment) {
    var since := if s.spikeSince.Some? then s.spikeSince.value else now;
    if now - since < STEPOUT then
      (s.(spikeSince := Some(since), state := Spike), Hold)
    else
      (s.(spikeSince := None, state := Settling, lastUpdate := Some(now), lastOffset := 0.0, slew := 0.0,
          updates := s.updates + 1, stepped := s.stepped + Abs(offset)),
       Step(offset, s.frequency))
  }

  function NormalOffset(s: Servo, offset: real, now: real, root: real -> real): (Servo, Adjustment) {
    var s := s.(spikeSince := None, state := if s.state == Spike then Settling else s.state);
    if s.lastUpdate.None? then
      Slewed(s.(lastUpdate := Some(now), lastOffset := offset, updates := s.updates + 1), offset, TIME_CONSTANT * 64.0)
    else
      var mu := Max(now - s.lastUpdate.value, 0.001);
      var t := Max(TIME_CONSTANT * mu, 1.0);
      Slewed(s.(jitter := LoopJitter(s.jitter, offset - s.lastOffset, root),
                frequency := SaneFrequency(LearnedFrequency(s.frequency, offset, s.lastOffset, mu, t)),
                lastUpdate := Some(now), lastOffset := offset, updates := s.updates + 1,
                state := if s.updates + 1 > 4 then Synchronised else s.state),
             offset, t)
  }

  /** The RMS of how far the offset moves between updates, decaying by an eighth. */
  function LoopJitter(jitter: real, moved: real, root: real -> real): real {
    var change := Abs(moved);
    root(Max(jitter * jitter + (change * change - jitter * jitter) / 8.0, 0.0))
  }

  /** The integral term and, over a long interval, the directly measured rate. */
  function LearnedFrequency(frequency: real, offset: real, lastOffset: real, mu: real, t: real): real
    requires mu > 0.0 && t > 0.0
  {
    var integrated := frequency + offset * mu / (t * t);
    if mu >= FLL_INTERVAL then integrated + (offset - lastOffset) / mu / 4.0 else integrated
  }

  class Discipline {
    var state: State
    var frequency: real
    var slew: real
    var lastUpdate: Option<real>
    var lastOffset: real
    var spikeSince: Option<real>
    var jitter: real
    var updates: nat
    var stepped: real

    ghost function AsServo(): Servo
      reads this
    {
      Servo(state, frequency, slew, lastUpdate, lastOffset, spikeSince, jitter, updates, stepped)
    }

    constructor (initialFrequency: real)
      ensures AsServo() == Fresh(initialFrequency)
    {
      state, frequency, slew := Startup, SaneFrequency(initialFrequency), 0.0;
      lastUpdate, lastOffset, spikeSince := None, 0.0, None;
      jitter, updates, stepped := 0.0, 0, 0.0;
    }

    method ResetPhase()
      modifies this
      ensures AsServo() == PhaseReset(old(AsServo()))
      ensures frequency == old(frequency) && stepped == old(stepped) && updates == old(updates) && jitter == old(jitter)
    {
      slew := 0.0;
      lastUpdate := None;
      lastOffset := 0.0;
      spikeSince := None;
      if state != Startup {
        state := Settling;
      }
    }

    method Update(offset: real, now: real, root: real -> real) returns (a: Adjustment)
      modifies this
      ensures (AsServo(), a) == Updated(old(AsServo()), offset, now, root)
      ensures a.Step? ==> a.seconds == offset && a.rate == old(frequency) == frequency
      ensures frequency != old(frequency) ==> -0.128 <= offset <= 0.128 && old(state) != Startup && old(lastUpdate).Some?
    {
      if state == Startup {
        lastUpdate, lastOffset := Some(now), offset;
        state := Settling;
        updates := updates + 1;
        if Abs(offset) > STEP_THRESHOLD {
          stepped := stepped + Abs(offset);
          return Step(offset, frequency);
        }
        a := ApplySlew(offset, TIME_CONSTANT * 64.0);
        return;
      }
      if Abs(offset) > PANIC_THRESHOLD {
        return Panic(offset);
      }
      if Abs(offset) > STEP_THRESHOLD {
        if spikeSince.None? {
          spikeSince := Some(now);
        }
        state := Spike;
        if now - spikeSince.value < STEPOUT {
          return Hold;
        }
        spikeSince := None;
        state := Settling;
        lastUpdate, lastOffset := Some(now), 0.0;
        slew := 0.0;
        updates := updates + 1;
        stepped := stepped + Abs(offset);
        return Step(offset, frequency);
      }
      a := NormalUpdate(offset, now, root);
    }

    /** A normal offset ends any spike in progress, corrects the phase, and teaches the frequency. */
    method NormalUpdate(offset: real, now: real, root: real -> real) returns (a: Adjustment)
      modifies this
      ensures (AsServo(), a) == NormalOffset(old(AsServo()), offset, now, root)
      ensures !a.Step? && (old(lastUpdate).None? ==> frequency == old(frequency))
    {
      hide LearnedFrequency, LoopJitter, SaneFrequency, Slewed;
      spikeSince := None;
      if state == Spike {
        state := Settling;
      }
      if lastUpdate.None? {
        lastUpdate, lastOffset := Some(now), offset;
        updates := updates + 1;
        a := ApplySlew(offset, TIME_CONSTANT * 64.0);
        return;
      }
      var mu := Max(now - lastUpdate.value, 0.001);
      jitter := LoopJitter(jitter, offset - lastOffset, root);
      var t := Max(TIME_CONSTANT * mu, 1.0);
      frequency := SaneFrequency(LearnedFrequency(frequency, offset, lastOffset, mu, t));
      lastUpdate, lastOffset := Some(now), offset;
      updates := updates + 1;
      if updates > 4 {
        state := Synchronised;
      }
      a := ApplySlew(offset, t);
    }

    method ApplySlew(offset: real, t: real) returns (a: Adjustment)
      requires t > 0.0
      modifies this
      ensures (AsServo(), a) == Slewed(old(AsServo()), offset, t)
      ensures a.Rate? && frequency == old(frequency)
    {
      slew := 2.0 * offset / t;
      a := Rate(Clamp(frequency + slew, -MAX_FREQUENCY, MAX_FREQUENCY));
    }
  }
}
