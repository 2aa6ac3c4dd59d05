/** The clock filter (section 10 of RFC 5905): eight samples, the least delayed one wins. */
module Filter {
  import opened Numbers
  import opened Sorting
  import opened Sample

  const NSTAGE: nat := 8

  /** RFC 5905's MAXDISPERSE: the dispersion of a slot that has never held a sample. */
  const MAX_DISPERSION: real := 16.0

  datatype Filtered = Filtered(offset: real, delay: Span, dispersion: Span, jitter: Span, at: real)

  datatype FilterOutcome = Update(filtered: Filtered) | Stale

  // ----- the estimate -----

  predicate ByDelay(a: Sample, b: Sample) {
    a.delay <= b.delay
  }

  function Ranked(samples: seq<Sample>): seq<Sample> {
    Sort(samples, ByDelay)
  }

  /** What the i-th ranked stage contributes before weighting. */
  function StageDispersion(ranked: seq<Sample>, i: nat, now: real): Span {
    if i < |ranked| then ranked[i].AgedDispersion(now) else MAX_DISPERSION
  }

  function WeightedDispersion(ranked: seq<Sample>, stages: nat, now: real): Span {
    if stages == 0 then 0.0
    else WeightedDispersion(ranked, stages - 1, now) + StageDispersion(ranked, stages - 1, now) / Pow2(stages)
  }

  function SquaresAbout(samples: seq<Sample>, centre: real): Span {
    if samples == [] then 0.0
    else
      var d := samples[|samples| - 1].offset - centre;
      SquareIsSpan(d);
      SquaresAbout(samples[..|samples| - 1], centre) + d * d
  }

  lemma SquareIsSpan(d: real)
    ensures d * d >= 0.0
  {
  }

  /** The spread of the ranked samples about the best one, floored. */
  function Spread(ranked: seq<Sample>, root: real -> real): Span
    requires ranked != []
  {
    if |ranked| > 1 then
      Max(root(SquaresAbout(ranked[1..], ranked[0].offset) / (|ranked| - 1) as real), MIN_DISPERSION)
    else MIN_DISPERSION
  }

  function Estimate(samples: seq<Sample>, now: real, root: real -> real): Filtered
    requires samples != []
  {
    SortPermutes(samples, ByDelay);
    var ranked := Ranked(samples);
    var best := ranked[0];
    Filtered(best.offset, best.delay, WeightedDispersion(ranked, NSTAGE, now), Spread(ranked, root), best.at)
  }

  /** The estimate's offset, delay and time are those of the newest of the least-delayed samples. */
  lemma EstimateIsNewestLeastDelayed(samples: seq<Sample>, now: real, root: real -> real) returns (k: nat)
    requires samples != []
    ensures FirstLeast(samples, ByDelay, k)
    ensures var f := Estimate(samples, now, root);
            f.offset == samples[k].offset && f.delay == samples[k].delay && f.at == samples[k].at
    ensures Ranked(samples) != [] && Ranked(samples)[0] == samples[k]
  {
    k := SortHead(samples, ByDelay);
  }

  /** RFC 5905's root distance: every way the answer could be off, added up. */
  function RootDistance(f: Filtered, rootDelay: Span, rootDispersion: Span, now: real): Span {
    Max(rootDelay + f.delay, MIN_DISPERSION) / 2.0 + rootDispersion + f.dispersion
    + PHI * Max(now - f.at, 0.0) + f.jitter
  }

  // ----- the register -----

  /** Newest first, and the time of the last sample reported. */
  datatype Register = Register(samples: seq<Sample>, lastReported: Option<real>)

  const EMPTY := Register([], None)

  function Newest(samples: seq<Sample>): seq<Sample> {
    if |samples| <= NSTAGE then samples else samples[..NSTAGE]
  }

  function Inserted(r: Register, sample: Sample, now: real, root: real -> real): (Register, FilterOutcome) {
    var samples := Newest([sample] + r.samples);
    var estimate := Estimate(samples, now, root);
    if r.lastReported.Some? && estimate.at <= r.lastReported.value then
      (Register(samples, r.lastReported), Stale)
    else
      (Register(samples, Some(estimate.at)), Update(estimate))
  }

  class ClockFilter {
    /** Newest first; None is a slot that has never been filled. */
    const stages: array<Option<Sample>>
    var lastReported: Option<real>

    ghost predicate Valid()
      reads this, stages
    {
      && stages.Length == NSTAGE
      && (forall i, j :: 0 <= i < j < NSTAGE && stages[j].Some? ==> stages[i].Some?)
    }

    /** The samples held, newest first. */
    ghost function Held(): seq<Sample>
      reads this, stages
      requires Valid()
    {
      Filled(stages[..])
    }

    ghost function State(): Register
      reads this, stages
      requires Valid()
    {
      Register(Held(), lastReported)
    }

    constructor ()
      ensures Valid() && State() == EMPTY && fresh(stages)
    {
      stages := new Option<Sample>[NSTAGE](i => None);
      lastReported := None;
      new;
      FilledNone(stages[..]);
    }

    method Reset()
      requires Valid()
      modifies this, stages
      ensures Valid() && State() == EMPTY
    {
      forall i | 0 <= i < stages.Length {
        stages[i] := None;
      }
      lastReported := None;
      FilledNone(stages[..]);
    }

    /** Shift a sample in and recompute. */
    method Insert(sample: Sample, now: real, root: real -> real) returns (outcome: FilterOutcome)
      requires Valid()
      modifies this, stages
      ensures Valid()
      ensures (State(), outcome) == Inserted(old(State()), sample, now, root)
    {
      ghost var was := stages[..];
      FilledPrefix(was);
      forall i | 0 < i < stages.Length {
        stages[i] := stages[i - 1];
      }
      stages[0] := Some(sample);
      assert stages[..] == [Some(sample)] + was[..NSTAGE - 1];
      FilledShift(was, sample);
      var ranked := Ranking();
      var estimate := Estimated(ranked, now, root);
      if lastReported.Some? && estimate.at <= lastReported.value {
        return Stale;
      }
      lastReported := Some(estimate.at);
      outcome := Update(estimate);
    }

    /** What the samples held come to at `now`; the register is left as it is. */
    method Peek(now: real, root: real -> real) returns (f: Option<Filtered>)
      requires Valid()
      ensures f == if State().samples == [] then None else Some(Estimate(State().samples, now, root))
    {
      var ranked := Ranking();
      SortPermutes(Held(), ByDelay);
      if ranked == [] {
        return None;
      }
      var estimate := Estimated(ranked, now, root);
      f := Some(estimate);
    }

    /** A copy of the filled stages, sorted by delay. */
    method Ranking() returns (ranked: seq<Sample>)
      requires Valid()
      ensures ranked == Ranked(Held())
    {
      var held: seq<Sample> := [];
      for i := 0 to stages.Length
        invariant held == Filled(stages[..i])
      {
        assert stages[..i + 1] == stages[..i] + [stages[i]];
        FilledAppend(stages[..i], [stages[i]]);
        if stages[i].Some? {
          held := held + [stages[i].value];
        }
      }
      assert stages[..stages.Length] == stages[..];
      ranked := Sort(held, ByDelay);
    }
  }

  /** What `insert` and `peek` compute once the stages are ranked. */
  method Estimated(ranked: seq<Sample>, now: real, root: real -> real) returns (f: Filtered)
    requires ranked != []
    ensures f == Filtered(ranked[0].offset, ranked[0].delay, WeightedDispersion(ranked, NSTAGE, now),
                          Spread(ranked, root), ranked[0].at)
  {
    var dispersion := WeighStages(ranked, now);
    var jitter: Span := MIN_DISPERSION;
    if |ranked| > 1 {
      var sum := SumSquares(ranked);
      jitter := Max(root(sum / (|ranked| - 1) as real), MIN_DISPERSION);
    }
    f := Filtered(ranked[0].offset, ranked[0].delay, dispersion, jitter, ranked[0].at);
  }

  method WeighStages(ranked: seq<Sample>, now: real) returns (dispersion: Span)
    ensures dispersion == WeightedDispersion(ranked, NSTAGE, now)
  {
    dispersion := 0.0;
    for i := 0 to NSTAGE
      invariant dispersion == WeightedDispersion(ranked, i, now)
    {
      var each: Span := if i < |ranked| then ranked[i].AgedDispersion(now) else MAX_DISPERSION;
      dispersion := dispersion + each / Pow2(i + 1);
    }
  }

  method SumSquares(ranked: seq<Sample>) returns (sum: Span)
    requires ranked != []
    ensures sum == SquaresAbout(ranked[1..], ranked[0].offset)
  {
    sum := 0.0;
    ghost var rest := ranked[1..];
    for i := 1 to |ranked|
      invariant sum == SquaresAbout(rest[..i - 1], ranked[0].offset)
    {
      assert rest[..i][..i - 1] == rest[..i - 1];
      var d := ranked[i].offset - ranked[0].offset;
      SquareIsSpan(d);
      sum := sum + d * d;
    }
    assert rest[..|ranked| - 1] == rest;
  }

  function Filled(stages: seq<Option<Sample>>): seq<Sample> {
    if stages == [] then []
    else (if stages[0].Some? then [stages[0].value] else []) + Filled(stages[1..])
  }

  lemma {:induction false} FilledAppend(a: seq<Option<Sample>>, b: seq<Option<Sample>>)
    ensures Filled(a + b) == Filled(a) + Filled(b)
  {
    if a == [] {
      assert a + b == b;
    } else {
      assert (a + b)[1..] == a[1..] + b && (a + b)[0] == a[0];
      FilledAppend(a[1..], b);
    }
  }

  lemma {:induction false} FilledNone(stages: seq<Option<Sample>>)
    requires forall i :: 0 <= i < |stages| ==> stages[i].None?
    ensures Filled(stages) == []
  {
    if stages != [] {
      FilledNone(stages[1..]);
    }
  }

  /** Filled slots come first, so they are the sequence held. */
  lemma {:induction false} FilledPrefix(stages: seq<Option<Sample>>)
    requires forall i, j :: 0 <= i < j < |stages| && stages[j].Some? ==> stages[i].Some?
    ensures |Filled(stages)| <= |stages|
    ensures forall i :: 0 <= i < |stages| ==> (stages[i].Some? <==> i < |Filled(stages)|)
    ensures forall i :: 0 <= i < |Filled(stages)| ==> stages[i] == Some(Filled(stages)[i])
  {
    if stages != [] {
      if stages[0].None? {
        FilledNone(stages);
      } else {
        FilledPrefix(stages[1..]);
      }
    }
  }

  lemma FilledShift(was: seq<Option<Sample>>, sample: Sample)
    requires |was| == NSTAGE
    requires forall i, j :: 0 <= i < j < |was| && was[j].Some? ==> was[i].Some?
    ensures Filled([Some(sample)] + was[..NSTAGE - 1]) == Newest([sample] + Filled(was))
  {
    var kept, last := was[..NSTAGE - 1], was[NSTAGE - 1];
    assert was == kept + [last];
    FilledAppend(kept, [last]);
    FilledPrefix(was);
    FilledPrefix(kept);
    assert Filled([last]) == if last.Some? then [last.value] else [];
    assert ([Some(sample)] + kept)[1..] == kept;
  }
}
