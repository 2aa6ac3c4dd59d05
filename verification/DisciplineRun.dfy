/** When and how far the clock may be stepped, over every run of the discipline. */
module DisciplineRun {
  import opened Numbers
  import opened Discipline

  datatype Event = Measure(offset: real, now: real) | ResetPhase

  function After(f0: real, events: seq<Event>, root: real -> real): Servo {
    if events == [] then Fresh(f0)
    else
      var s := After(f0, events[..|events| - 1], root);
      match events[|events| - 1]
      case Measure(offset, now) => Updated(s, offset, now, root).0
      case ResetPhase => PhaseReset(s)
  }

  /** What the k-th measurement was answered with. */
  function AnswerAt(f0: real, events: seq<Event>, k: nat, root: real -> real): Adjustment
    requires k < |events| && events[k].Measure?
  {
    Updated(After(f0, events[..k], root), events[k].offset, events[k].now, root).1
  }

  predicate IsStepAt(f0: real, events: seq<Event>, k: nat, root: real -> real) {
    k < |events| && events[k].Measure? && AnswerAt(f0, events, k, root).Step?
  }

  ghost predicate TimeMovesForward(events: seq<Event>) {
    forall i, j :: 0 <= i < j < |events| && events[i].Measure? && events[j].Measure? ==> events[i].now <= events[j].now
  }

  predicate Bounded(frequency: real) {
    -MAX_FREQUENCY <= frequency <= MAX_FREQUENCY
  }

  lemma AfterStep(f0: real, events: seq<Event>, k: nat, root: real -> real)
    requires k < |events|
    ensures After(f0, events[..k + 1], root)
            == match events[k]
               case Measure(offset, now) => Updated(After(f0, events[..k], root), offset, now, root).0
               case ResetPhase => PhaseReset(After(f0, events[..k], root))
  {
    assert events[..k + 1][..k] == events[..k];
  }

  // ----- one step -----

  /** The spike state is exactly a running stepout timer, nothing has happened
      before the first measurement, and the frequency is inside the tolerance. */
  ghost predicate Consistent(s: Servo) {
    && (s.state == Spike <==> s.spikeSince.Some?)
    && (s.state == Startup ==> s.updates == 0 && s.stepped == 0.0)
    && Bounded(s.frequency)
  }

  lemma UpdateIsConsistent(s: Servo, offset: real, now: real, root: real -> real)
    requires Consistent(s)
    ensures var (s', a) := Updated(s, offset, now, root);
            && Consistent(s') && s'.state != Startup
            && (a.Rate? ==> Bounded(a.rate))
            && (a.Step? ==> Bounded(a.rate) && a.seconds == offset)
            && s'.updates == s.updates + (if a.Rate? || a.Step? then 1 else 0)
            && s'.stepped == s.stepped + (if a.Step? then Abs(a.seconds) else 0.0)
            && (a.Panic? <==> s.state != Startup && Abs(offset) > PANIC_THRESHOLD)
  {
  }

  /** How the stepout timer moves outside startup. */
  lemma TimerStep(s: Servo, offset: real, now: real, root: real -> real)
    requires Consistent(s)
    ensures var (s', a) := Updated(s, offset, now, root);
            && (s'.spikeSince.Some? ==> Abs(offset) > STEP_THRESHOLD && (a.Hold? || a.Panic?))
            && (s'.spikeSince.Some? && s.spikeSince.Some? ==> s'.spikeSince == s.spikeSince)
            && (s'.spikeSince.Some? && s.spikeSince.None? ==> s'.spikeSince == Some(now) && Abs(offset) <= PANIC_THRESHOLD)
            && (a.Hold? ==> s'.spikeSince == if s.spikeSince.Some? then s.spikeSince else Some(now))
            && (a.Panic? ==> s' == s)
            && (a.Hold? || a.Panic? ==> s.state != Startup)
            && (a.Step? && s.state != Startup ==> s.spikeSince.Some? && now - s.spikeSince.value >= STEPOUT
                                                  && STEP_THRESHOLD < Abs(offset) <= PANIC_THRESHOLD)
  {
  }

  // ----- whole runs -----

  lemma {:induction false} RunIsConsistent(f0: real, events: seq<Event>, k: nat, root: real -> real)
    requires k <= |events|
    ensures Consistent(After(f0, events[..k], root))
  {
    if k > 0 {
      RunIsConsistent(f0, events, k - 1, root);
      AfterStep(f0, events, k - 1, root);
      if events[k - 1].Measure? {
        UpdateIsConsistent(After(f0, events[..k - 1], root), events[k - 1].offset, events[k - 1].now, root);
      }
    }
  }

  /** The frequency and every rate requested stay within 500 parts per million. */
  lemma RatesAreBounded(f0: real, events: seq<Event>, k: nat, root: real -> real)
    requires k < |events| && events[k].Measure?
    ensures Bounded(After(f0, events[..k + 1], root).frequency)
    ensures AnswerAt(f0, events, k, root).Rate? ==> Bounded(AnswerAt(f0, events, k, root).rate)
    ensures AnswerAt(f0, events, k, root).Step? ==> Bounded(AnswerAt(f0, events, k, root).rate)
  {
    RunIsConsistent(f0, events, k, root);
    RunIsConsistent(f0, events, k + 1, root);
    UpdateIsConsistent(After(f0, events[..k], root), events[k].offset, events[k].now, root);
  }

  function Steps(f0: real, events: seq<Event>, k: nat, root: real -> real): real
    requires k <= |events|
  {
    if k == 0 then 0.0
    else Steps(f0, events, k - 1, root)
         + if IsStepAt(f0, events, k - 1, root) then Abs(AnswerAt(f0, events, k - 1, root).seconds) else 0.0
  }

  function Applied(f0: real, events: seq<Event>, k: nat, root: real -> real): nat
    requires k <= |events|
  {
    if k == 0 then 0
    else Applied(f0, events, k - 1, root)
         + if events[k - 1].Measure? && !AnswerAt(f0, events, k - 1, root).Hold?
              && !AnswerAt(f0, events, k - 1, root).Panic? then 1 else 0
  }

  /** The two reported totals are true: seconds stepped, and corrections applied. */
  lemma {:induction false} TotalsAreTrue(f0: real, events: seq<Event>, k: nat, root: real -> real)
    requires k <= |events|
    ensures After(f0, events[..k], root).stepped == Steps(f0, events, k, root)
    ensures After(f0, events[..k], root).updates == Applied(f0, events, k, root)
  {
    if k > 0 {
      TotalsAreTrue(f0, events, k - 1, root);
      RunIsConsistent(f0, events, k - 1, root);
      AfterStep(f0, events, k - 1, root);
      if events[k - 1].Measure? {
        UpdateIsConsistent(After(f0, events[..k - 1], root), events[k - 1].offset, events[k - 1].now, root);
      }
    }
  }

  /** From j up to k: nothing but large offsets, none of them acted on. */
  ghost predicate Waiting(f0: real, events: seq<Event>, j: nat, k: nat, root: real -> real) {
    && j <= k <= |events|
    && forall i :: j <= i < k ==> events[i].Measure? && Abs(events[i].offset) > STEP_THRESHOLD
                                  && (AnswerAt(f0, events, i, root).Hold? || AnswerAt(f0, events, i, root).Panic?)
  }

  /** A running timer has an unbroken run of large offsets behind it, back to when it started. */
  lemma {:induction false} TimerHasRun(f0: real, events: seq<Event>, k: nat, root: real -> real) returns (j: nat)
    requires k <= |events| && After(f0, events[..k], root).spikeSince.Some?
    ensures j < k && Waiting(f0, events, j, k, root)
    ensures Abs(events[j].offset) <= PANIC_THRESHOLD
    ensures After(f0, events[..k], root).spikeSince == Some(events[j].now)
  {
    assert k > 0;
    var s := After(f0, events[..k - 1], root);
    RunIsConsistent(f0, events, k - 1, root);
    AfterStep(f0, events, k - 1, root);
    TimerStep(s, events[k - 1].offset, events[k - 1].now, root);
    if s.spikeSince.Some? {
      j := TimerHasRun(f0, events, k - 1, root);
    } else {
      j := k - 1;
    }
  }

  /** A step outside startup has been waited out: at least 900 s of measurements all more than
      128 ms off, with no phase reset and no other answer in between; and it is at most 1000 s. */
  lemma StepIsWaitedOut(f0: real, events: seq<Event>, k: nat, root: real -> real) returns (j: nat)
    requires IsStepAt(f0, events, k, root) && After(f0, events[..k], root).state != Startup
    ensures j < k && Waiting(f0, events, j, k, root)
    ensures Abs(events[j].offset) <= PANIC_THRESHOLD
    ensures events[k].now - events[j].now >= STEPOUT
    ensures AnswerAt(f0, events, k, root).seconds == events[k].offset
    ensures STEP_THRESHOLD < Abs(events[k].offset) <= PANIC_THRESHOLD
  {
    RunIsConsistent(f0, events, k, root);
    UpdateIsConsistent(After(f0, events[..k], root), events[k].offset, events[k].now, root);
    TimerStep(After(f0, events[..k], root), events[k].offset, events[k].now, root);
    j := TimerHasRun(f0, events, k, root);
  }

  /** A timer running at j keeps its start while the wait lasts. */
  lemma {:induction false} TimerHolds(f0: real, events: seq<Event>, j: nat, k: nat, root: real -> real)
    requires j < k && Waiting(f0, events, j, k, root) && Abs(events[j].offset) <= PANIC_THRESHOLD
    ensures After(f0, events[..k], root).spikeSince.Some?
    ensures TimeMovesForward(events) ==> After(f0, events[..k], root).spikeSince.value <= events[j].now
    decreases k
  {
    hide Updated;
    var s, m := After(f0, events[..k - 1], root), events[k - 1];
    RunIsConsistent(f0, events, k - 1, root);
    AfterStep(f0, events, k - 1, root);
    TimerStep(s, m.offset, m.now, root);
    if j < k - 1 {
      TimerHolds(f0, events, j, k - 1, root);
    } else {
      UpdateIsConsistent(s, m.offset, m.now, root);
      TimerIsPast(f0, events, j, root);
    }
  }

  lemma {:induction false} TimerIsPast(f0: real, events: seq<Event>, k: nat, root: real -> real)
    requires k < |events| && events[k].Measure?
    ensures TimeMovesForward(events) && After(f0, events[..k], root).spikeSince.Some?
            ==> After(f0, events[..k], root).spikeSince.value <= events[k].now
  {
    if TimeMovesForward(events) && After(f0, events[..k], root).spikeSince.Some? {
      var j := TimerHasRun(f0, events, k, root);
    }
  }

  /** Exactly when the clock is stepped after startup: the offset is between 128 ms and 1000 s, and has been waited
      out since some offset, itself at most 1000 s, at least 900 s earlier. */
  lemma StepExactly(f0: real, events: seq<Event>, k: nat, root: real -> real)
    requires TimeMovesForward(events) && k < |events| && events[k].Measure?
    requires After(f0, events[..k], root).state != Startup
    ensures IsStepAt(f0, events, k, root)
            <==> && STEP_THRESHOLD < Abs(events[k].offset) <= PANIC_THRESHOLD
                 && exists j: nat :: j < k && Waiting(f0, events, j, k, root) && Abs(events[j].offset) <= PANIC_THRESHOLD
                                     && events[k].now - events[j].now >= STEPOUT
  {
    if IsStepAt(f0, events, k, root) {
      var j := StepIsWaitedOut(f0, events, k, root);
    }
    if j: nat :| j < k && Waiting(f0, events, j, k, root) && Abs(events[j].offset) <= PANIC_THRESHOLD
                 && events[k].now - events[j].now >= STEPOUT {
      TimerHolds(f0, events, j, k, root);
    }
  }

  /** From j to k: nothing but offsets between 128 ms and 1000 s. */
  ghost predicate Sustained(events: seq<Event>, j: nat, k: nat) {
    && j <= k < |events|
    && forall i :: j <= i <= k ==> events[i].Measure? && STEP_THRESHOLD < Abs(events[i].offset) <= PANIC_THRESHOLD
  }

  /** An offset that persists is acted on: over any stretch of 900 s with nothing else measured there is a step. */
  lemma SustainedOffsetIsStepped(f0: real, events: seq<Event>, j: nat, k: nat, root: real -> real) returns (i: nat)
    requires TimeMovesForward(events) && Sustained(events, j, k) && events[k].now - events[j].now >= STEPOUT
    ensures j <= i <= k && IsStepAt(f0, events, i, root)
  {
    i := j;
    while i < k && !IsStepAt(f0, events, i, root)
      invariant j <= i <= k
      invariant Waiting(f0, events, j, i, root)
    {
      LargeIsHeldOrStepped(f0, events, i, root);
      i := i + 1;
    }
    if i == k {
      assert Waiting(f0, events, j, k, root);
      StartupIsOver(f0, events, j, k, root);
      StepExactly(f0, events, k, root);
    }
  }

  lemma LargeIsHeldOrStepped(f0: real, events: seq<Event>, i: nat, root: real -> real)
    requires i < |events| && events[i].Measure? && Abs(events[i].offset) > STEP_THRESHOLD
    ensures var a := AnswerAt(f0, events, i, root); a.Hold? || a.Panic? || a.Step?
  {
  }

  lemma {:induction false} StartupIsOver(f0: real, events: seq<Event>, i: nat, k: nat, root: real -> real)
    requires i < k <= |events| && events[i].Measure?
    ensures After(f0, events[..k], root).state != Startup
    decreases k
  {
    AfterStep(f0, events, k - 1, root);
    RunIsConsistent(f0, events, k - 1, root);
    if events[k - 1].Measure? {
      UpdateIsConsistent(After(f0, events[..k - 1], root), events[k - 1].offset, events[k - 1].now, root);
    } else {
      StartupIsOver(f0, events, i, k - 1, root);
    }
  }

  /** While the clock read by the discipline does not go back, any two steps are at least 900 s
      apart, and only the first measurement of all can be a step that was not waited out. */
  lemma StepsAreApart(f0: real, events: seq<Event>, i: nat, k: nat, root: real -> real)
    requires TimeMovesForward(events) && i < k
    requires IsStepAt(f0, events, i, root) && IsStepAt(f0, events, k, root)
    ensures events[k].now - events[i].now >= STEPOUT
    ensures Abs(AnswerAt(f0, events, k, root).seconds) <= PANIC_THRESHOLD
  {
    StartupIsOver(f0, events, i, k, root);
    var j := StepIsWaitedOut(f0, events, k, root);
    assert i < j;
  }

  /** What the timer does not ask is that the offsets agree: half a second fast
      and then half a second slow still counts as one persistent offset. */
  lemma SignsNeedNotAgree(root: real -> real)
    ensures var events := [Measure(0.0, 0.0), Measure(0.5, 64.0), Measure(-0.5, 964.0)];
            IsStepAt(0.0, events, 2, root) && AnswerAt(0.0, events, 2, root).seconds == -0.5
  {
    var events := [Measure(0.0, 0.0), Measure(0.5, 64.0), Measure(-0.5, 964.0)];
    AfterStep(0.0, events, 0, root);
    AfterStep(0.0, events, 1, root);
    assert events[..0] == [];
  }

  /** The loop jitter is a decaying mean square: one eighth of each new move, seven eighths of the old. */
  lemma JitterIsDecayingMeanSquare(jitter: real, moved: real, root: real -> real)
    requires IsRoot(root)
    ensures LoopJitter(jitter, moved, root) >= 0.0
    ensures LoopJitter(jitter, moved, root) * LoopJitter(jitter, moved, root)
            == 7.0 / 8.0 * (jitter * jitter) + 1.0 / 8.0 * (moved * moved)
  {
    var change := Abs(moved);
    assert change * change == moved * moved;
    assert jitter * jitter >= 0.0 && moved * moved >= 0.0;
    var mean := jitter * jitter + (change * change - jitter * jitter) / 8.0;
    assert mean == 7.0 / 8.0 * (jitter * jitter) + 1.0 / 8.0 * (moved * moved);
    assert root(mean) * root(mean) == mean;
  }

  // ----- what each measurement does, in plain numbers -----

  /** A step leaves the clock running at the rate already learned, which the step itself does not change. */
  lemma StepKeepsRate(f0: real, events: seq<Event>, k: nat, root: real -> real)
    requires IsStepAt(f0, events, k, root)
    ensures AnswerAt(f0, events, k, root).rate == After(f0, events[..k], root).frequency
    ensures After(f0, events[..k + 1], root).frequency == After(f0, events[..k], root).frequency
    ensures AnswerAt(f0, events, k, root).seconds == events[k].offset
  {
    AfterStep(f0, events, k, root);
  }

  /** Only a measurement within 128 ms, with an earlier update of this phase behind it, teaches the frequency. */
  lemma OnlyNormalTeaches(f0: real, events: seq<Event>, k: nat, root: real -> real)
    requires k < |events| && After(f0, events[..k + 1], root).frequency != After(f0, events[..k], root).frequency
    ensures events[k].Measure? && -0.128 <= events[k].offset <= 0.128
    ensures var s := After(f0, events[..k], root); s.state != Startup && s.lastUpdate.Some?
    ensures AnswerAt(f0, events, k, root).Rate?
  {
    AfterStep(f0, events, k, root);
  }

  /** Measurements that leave the servo as it was but for what is said here. A first one is stepped past 128 ms and slewed over
      256 s else; then past 1000 s nothing is done, and past 128 ms the wait decides between a hold and a step. */
  lemma AnswerExactly(s: Servo, offset: real, now: real, root: real -> real)
    ensures var (s', a) := Updated(s, offset, now, root);
            var size := if offset < 0.0 then -offset else offset;
            if s.state == Startup && size > 0.128 then
              && a == Step(offset, s.frequency)
              && s' == s.(state := Settling, lastUpdate := Some(now), lastOffset := offset, updates := s.updates + 1,
                          stepped := s.stepped + size)
            else if s.state == Startup then
              && a == Rate(Limited(s.frequency + offset / 128.0))
              && s' == s.(state := Settling, lastUpdate := Some(now), lastOffset := offset, updates := s.updates + 1,
                          slew := offset / 128.0)
            else if size > 1000.0 then
              a == Panic(offset) && s' == s
            else if size > 0.128 && (s.spikeSince.None? || now - s.spikeSince.value < 900.0) then
              a == Hold && s' == s.(state := Spike, spikeSince := if s.spikeSince.Some? then s.spikeSince else Some(now))
            else if size > 0.128 then
              && a == Step(offset, s.frequency)
              && s' == s.(state := Settling, spikeSince := None, lastUpdate := Some(now), lastOffset := 0.0, slew := 0.0,
                          updates := s.updates + 1, stepped := s.stepped + size)
            else
              a.Rate? && s'.state != Startup && s'.state != Spike
  {
    assert 2.0 * offset / (4.0 * 64.0) == offset / 128.0;
    hide LearnedFrequency, LoopJitter;
  }

  /** An offset within 128 ms, outside startup: the first of its phase is slewed over 256 s and teaches nothing;
      a later one teaches frequency and jitter, and the fifth update of all is synchronisation. */
  lemma NormalExactly(s: Servo, offset: real, now: real, root: real -> real)
    requires s.state != Startup && -0.128 <= offset <= 0.128
    ensures var (s', a) := Updated(s, offset, now, root);
            var state := if s.state == Spike then Settling else s.state;
            if s.lastUpdate.None? then
              && a == Rate(Limited(s.frequency + offset / 128.0))
              && s' == s.(state := state, spikeSince := None, lastUpdate := Some(now), lastOffset := offset,
                          updates := s.updates + 1, slew := offset / 128.0)
            else
              && a == Rate(Limited(s'.frequency + s'.slew))
              && s' == s.(state := if s.updates >= 4 then Synchronised else state, spikeSince := None, lastUpdate := Some(now),
                          lastOffset := offset, updates := s.updates + 1,
                          frequency := s'.frequency, slew := s'.slew, jitter := s'.jitter)
  {
    assert 2.0 * offset / (4.0 * 64.0) == offset / 128.0;
    hide LearnedFrequency, LoopJitter;
  }

  /** Its jitter, squared: seven eighths of what it was and one eighth of the offset's move, squared. */
  lemma NormalJitter(s: Servo, offset: real, now: real, root: real -> real)
    requires IsRoot(root) && s.state != Startup && s.lastUpdate.Some? && -0.128 <= offset <= 0.128
    ensures var j := Updated(s, offset, now, root).0.jitter;
            j >= 0.0 && IsDecayed(j, s.jitter, offset - s.lastOffset)
  {
    JitterIsDecayingMeanSquare(s.jitter, offset - s.lastOffset, root);
    NormalJitterIs(s, offset, now, root);
    hide *;
    SquaresMatch(Updated(s, offset, now, root).0.jitter, s.jitter, offset - s.lastOffset);
  }

  lemma NormalJitterIs(s: Servo, offset: real, now: real, root: real -> real)
    requires s.state != Startup && s.lastUpdate.Some? && -0.128 <= offset <= 0.128
    ensures Updated(s, offset, now, root).0.jitter == LoopJitter(s.jitter, offset - s.lastOffset, root)
  {
    hide LearnedFrequency, LoopJitter, SaneFrequency;
  }

  lemma SquaresMatch(jitter: real, before: real, moved: real)
    requires jitter * jitter == 7.0 / 8.0 * (before * before) + 1.0 / 8.0 * (moved * moved)
    ensures IsDecayed(jitter, before, moved)
  {
  }

  predicate IsDecayed(jitter: real, before: real, moved: real) {
    jitter * jitter == 7.0 / 8.0 * (before * before) + 1.0 / 8.0 * (moved * moved)
  }

  /** A fresh discipline has done nothing, and runs at the rate remembered, within 500 parts per million. */
  lemma FreshInNumbers(frequency: real)
    ensures Fresh(frequency) == Servo(Startup, Limited(frequency), 0.0, None, 0.0, None, 0.0, 0, 0.0)
  {
  }

  /** A burst: under a quarter second apart everything counts as over one second. */
  lemma LessonOfABurst(s: Servo, offset: real, now: real, root: real -> real)
    requires s.state != Startup && s.lastUpdate.Some? && -0.128 <= offset <= 0.128 && now - s.lastUpdate.value < 0.25
    ensures var (s', a) := Updated(s, offset, now, root);
            var mu := if now - s.lastUpdate.value > 0.001 then now - s.lastUpdate.value else 0.001;
            s'.frequency == Limited(s.frequency + offset * mu) && a == Rate(Limited(s'.frequency + 2.0 * offset))
  {
    var mu := Max(now - s.lastUpdate.value, 0.001);
    OverOneSecond(s.frequency, offset, s.lastOffset, mu);
    NormalAnswer(s, offset, now, mu, 1.0, s.frequency + offset * mu, root);
    hide Updated, LearnedFrequency;
  }

  lemma NormalAnswer(s: Servo, offset: real, now: real, mu: real, t: real, learned: real, root: real -> real)
    requires s.state != Startup && s.lastUpdate.Some? && -0.128 <= offset <= 0.128
    requires mu == Max(now - s.lastUpdate.value, 0.001) && t == Max(4.0 * mu, 1.0)
    requires learned == LearnedFrequency(s.frequency, offset, s.lastOffset, mu, t)
    ensures Updated(s, offset, now, root).0.frequency == Limited(learned)
    ensures Updated(s, offset, now, root).1 == Rate(Limited(Limited(learned) + 2.0 * offset / t))
  {
    hide LoopJitter, LearnedFrequency;
  }

  lemma OverOneSecond(frequency: real, offset: real, before: real, mu: real)
    requires 0.0 < mu < 0.25
    ensures LearnedFrequency(frequency, offset, before, mu, 1.0) == frequency + offset * mu
  {
    assert 1.0 * 1.0 == 1.0;
  }

  /** A reset of the phase forgets no rate, no total and no jitter, and starts no new startup. */
  lemma ResetForgetsOnlyPhase(f0: real, events: seq<Event>, k: nat, root: real -> real)
    requires k < |events| && events[k].ResetPhase?
    ensures var s, s' := After(f0, events[..k], root), After(f0, events[..k + 1], root);
            && s'.frequency == s.frequency && s'.jitter == s.jitter && s'.updates == s.updates && s'.stepped == s.stepped
            && s'.lastUpdate.None? && s'.spikeSince.None? && s'.lastOffset == 0.0 && s'.slew == 0.0
            && (s'.state == Startup <==> s.state == Startup) && (s.state != Startup ==> s'.state == Settling)
  {
    AfterStep(f0, events, k, root);
  }
}
