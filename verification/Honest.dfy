/**
 Why an honest server is a truechimer: from the physics of one exchange, through
 the reduction, the filter and the root distance, to the bound on the selected offset.
 */
module Honest {
  import opened Numbers
  import opened Sorting
  import opened Timestamp
  import opened Sample
  import opened Filter
  import opened Intersection
  import opened Selection

  function InSeconds(t: int): real {
    t as real / SECOND as real
  }

  /** One exchange as it happened: what the clocks read, and the true times of
      the client's send, the server's receipt and reply, and the client's receipt. */
  datatype Passage = Passage(times: TrueTimes, sent: real, reached: real, replied: real, arrived: real) {
    /** What must be added to the local clock at the send, and at the receipt, to make it true. */
    function OffsetAtSend(): real { sent - InSeconds(times.t1) }
    function OffsetAtArrival(): real { arrived - InSeconds(times.t4) }

    /** No packet arrives before it is sent; the server's clock is within `error` of true time and
        one tick; the local clock drifts at most PHI over the exchange, and is read to one tick. */
    ghost predicate IsHonest(error: real, localTick: real, serverTick: real) {
      && sent <= reached <= replied <= arrived
      && Abs(InSeconds(times.t2) - reached) <= error + serverTick
      && Abs(InSeconds(times.t3) - replied) <= error + serverTick
      && Abs(OffsetAtSend() - OffsetAtArrival()) <= PHI * times.RoundTrip() + localTick
    }
  }

  /** The dispersion `reduce` reports for these readings. */
  function ReadingError(times: TrueTimes, localTick: real, serverTick: real): real {
    localTick + serverTick + PHI * times.RoundTrip()
  }

  lemma ReadingsAdd(times: TrueTimes)
    ensures times.RoundTrip() == InSeconds(times.t4) - InSeconds(times.t1)
    ensures times.Held() == InSeconds(times.t3) - InSeconds(times.t2)
    ensures times.Offset() == (InSeconds(times.t2) - InSeconds(times.t1) + InSeconds(times.t3) - InSeconds(times.t4)) / 2.0
  {
  }

  /** The error of a measurement is at most half the time on the path, plus the server's own, plus the reading
      error; and the time on the path is at most the delay, which is floored. */
  lemma MeasurementError(p: Passage, error: real, localTick: real, serverTick: real)
    requires p.IsHonest(error, localTick, serverTick)
    ensures Abs(p.times.Offset() - p.OffsetAtArrival())
            <= p.times.OnPath() / 2.0 + error + ReadingError(p.times, localTick, serverTick)
    ensures p.times.OnPath() <= p.times.Delay()
    ensures Possible(p.times, error, localTick, serverTick)
  {
    ReadingsAdd(p.times);
  }

  /** The server did not hold the request longer than clocks this good could have it seem. */
  predicate Possible(times: TrueTimes, error: real, localTick: real, serverTick: real) {
    0.0 <= times.OnPath() + PHI * times.RoundTrip() + localTick + 2.0 * (error + serverTick)
  }

  /** And no smaller bound would do: whatever the readings, if any honest passage
      could have left them, then one is wrong by exactly that much. */
  lemma MeasurementErrorIsTight(times: TrueTimes, error: real, localTick: real, serverTick: real) returns (p: Passage)
    requires times.t1 <= times.t4 && times.t2 <= times.t3 && error >= 0.0 && localTick > 0.0 && serverTick > 0.0
    requires Possible(times, error, localTick, serverTick)
    ensures p.times == times && p.IsHonest(error, localTick, serverTick)
    ensures p.OffsetAtArrival() - times.Offset()
            == times.OnPath() / 2.0 + error + ReadingError(times, localTick, serverTick)
  {
    ReadingsAdd(times);
    var drift := PHI * times.RoundTrip() + localTick;
    var sent := InSeconds(times.t2) + error + serverTick;
    var replied := Max(sent, InSeconds(times.t3) - error - serverTick);
    var arrived := InSeconds(times.t4) + (sent - InSeconds(times.t1)) + drift;
    p := Passage(times, sent, sent, replied, arrived);
    assert p.OffsetAtSend() - p.OffsetAtArrival() == -drift;
    assert times.RoundTrip() >= 0.0 && times.Held() >= 0.0;
  }

  /** What is known of a source's estimate: the register, the place in it of the sample
      chosen, and the exchange that sample came from. */
  datatype Evidence = Evidence(
    samples: seq<Sample>, chosen: nat, passage: Passage, localPrecision: int, serverPrecision: int, maxDelay: real)
  {
    /** The chosen sample is the filter's choice and was reduced from this passage. */
    ghost predicate Supports(estimate: Filtered, now: real, root: real -> real) {
      && samples != []
      && estimate == Estimate(samples, now, root)
      && FirstLeast(samples, ByDelay, chosen)
      && passage.times.Near()
      && Reduce(passage.times.OnTheWire(), localPrecision, serverPrecision, maxDelay, samples[chosen].at)
         == Ok(samples[chosen])
    }

    ghost predicate IsHonest(error: real) {
      passage.IsHonest(error, Log2Seconds(localPrecision), Log2Seconds(serverPrecision))
    }

    /** Some honest passage could have left these readings. */
    predicate IsPossible(error: real) {
      Possible(passage.times, error, Log2Seconds(localPrecision), Log2Seconds(serverPrecision))
    }

    /** The estimate has room for half the time on the path and the chosen sample's reading error. */
    predicate IsCovered(f: Filtered)
      requires chosen < |samples|
    {
      passage.times.OnPath() / 2.0 + samples[chosen].dispersion <= f.delay / 2.0 + f.dispersion + f.jitter
    }
  }

  lemma EvidenceMeasures(e: Evidence, f: Filtered, now: real, root: real -> real)
    requires e.Supports(f, now, root)
    ensures var s, t := e.samples[e.chosen], e.passage.times;
            && t.t1 <= t.t4 && t.t2 <= t.t3
            && f.offset == s.offset == t.Offset() && f.delay == s.delay == t.Delay() && f.at == s.at
            && s.dispersion == ReadingError(t, Log2Seconds(e.localPrecision), Log2Seconds(e.serverPrecision))
  {
    ReduceExact(e.passage.times, e.localPrecision, e.serverPrecision, e.maxDelay, e.samples[e.chosen].at);
    var k := EstimateIsNewestLeastDelayed(e.samples, now, root);
    FirstLeastIsUnique(e.samples, k, e.chosen);
  }

  lemma FirstLeastIsUnique(s: seq<Sample>, k: nat, k': nat)
    requires FirstLeast(s, ByDelay, k) && FirstLeast(s, ByDelay, k')
    ensures k == k'
  {
    var a, b := ByDelay(s[k], s[k']), ByDelay(s[k'], s[k]);
  }

  /** The weighted dispersion counts the chosen sample at half, and the jitter is floored, so
      a reading error of at most two milliseconds is always covered. */
  lemma SmallReadingErrorIsCovered(e: Evidence, f: Filtered, now: real, root: real -> real)
    requires e.Supports(f, now, root)
    requires e.samples[e.chosen].dispersion <= 2.0 * MIN_DISPERSION
    ensures e.samples[e.chosen].dispersion <= f.dispersion + f.jitter && e.IsCovered(f)
  {
    EvidenceMeasures(e, f, now, root);
    var k := EstimateIsNewestLeastDelayed(e.samples, now, root);
    FirstLeastIsUnique(e.samples, k, e.chosen);
    FirstStageCounts(Ranked(e.samples), NSTAGE, now);
  }

  lemma {:induction false} FirstStageCounts(ranked: seq<Sample>, stages: nat, now: real)
    requires stages > 0 && ranked != []
    ensures WeightedDispersion(ranked, stages, now) >= ranked[0].dispersion / 2.0
  {
    if stages == 1 {
      assert Pow2(1) == 2.0 && WeightedDispersion(ranked, 0, now) == 0.0;
    } else {
      FirstStageCounts(ranked, stages - 1, now);
    }
  }

  /** The true offset at `now`, the local clock having drifted at most PHI since the estimate was measured. */
  ghost predicate IsTrueOffset(p: Passage, f: Filtered, offset: real, now: real) {
    Abs(offset - p.OffsetAtArrival()) <= PHI * Max(now - f.at, 0.0)
  }

  /** An honest server is a truechimer: its claim holds the true offset `offset` at `now`, provided
      the estimate covers the reading error. */
  lemma HonestIsTrueChimer(c: Candidate, e: Evidence, offset: real, now: real, root: real -> real)
    requires e.Supports(c.filtered, now, root) && e.IsHonest(c.rootDelay / 2.0 + c.rootDispersion)
    requires IsTrueOffset(e.passage, c.filtered, offset, now)
    requires e.IsCovered(c.filtered)
    ensures c.AsClaim(now).Holds(offset)
  {
    EvidenceMeasures(e, c.filtered, now, root);
    var uncertainty := e.passage.times.OnPath() / 2.0 + e.samples[e.chosen].dispersion;
    assert uncertainty <= c.filtered.delay / 2.0 + c.filtered.dispersion + c.filtered.jitter;
    hide *;
    MeasurementError(e.passage, c.rootDelay / 2.0 + c.rootDispersion,
                     Log2Seconds(e.localPrecision), Log2Seconds(e.serverPrecision));
    ClaimHolds(c, e.passage, offset, now, uncertainty);
  }

  lemma ClaimHolds(c: Candidate, p: Passage, offset: real, now: real, uncertainty: real)
    requires Abs(c.filtered.offset - p.OffsetAtArrival()) <= uncertainty + (c.rootDelay / 2.0 + c.rootDispersion)
    requires IsTrueOffset(p, c.filtered, offset, now)
    requires uncertainty <= c.filtered.delay / 2.0 + c.filtered.dispersion + c.filtered.jitter
    ensures c.AsClaim(now).Holds(offset)
  {
  }

  /** In every honest world that left these readings, the candidate's claim holds the true offset at `now`. */
  ghost predicate AlwaysChimes(c: Candidate, e: Evidence, now: real) {
    forall p: Passage, offset: real ::
      p.times == e.passage.times && e.(passage := p).IsHonest(c.rootDelay / 2.0 + c.rootDispersion)
      && IsTrueOffset(p, c.filtered, offset, now)
      ==> c.AsClaim(now).Holds(offset)
  }

  /** That proviso is exact, for all readings and at every moment: the claim holds the true offset in every
      honest world that could have left them if and only if the estimate covers them, or there is no such world. */
  lemma TrueChimerExactly(c: Candidate, e: Evidence, now: real, root: real -> real)
    requires e.Supports(c.filtered, now, root)
    ensures AlwaysChimes(c, e, now)
            <==> (e.IsPossible(c.rootDelay / 2.0 + c.rootDispersion) ==> e.IsCovered(c.filtered))
  {
    if !e.IsPossible(c.rootDelay / 2.0 + c.rootDispersion) || e.IsCovered(c.filtered) {
      CoveredChimes(c, e, now, root);
    } else {
      var p, offset := MissesSomewhere(c, e, now, root);
    }
  }

  lemma CoveredChimes(c: Candidate, e: Evidence, now: real, root: real -> real)
    requires e.Supports(c.filtered, now, root)
    requires e.IsPossible(c.rootDelay / 2.0 + c.rootDispersion) ==> e.IsCovered(c.filtered)
    ensures AlwaysChimes(c, e, now)
  {
    hide Evidence.IsCovered, IsTrueOffset, Claim.Holds, Candidate.AsClaim, Reduce, Estimate, Log2Seconds;
    var error := c.rootDelay / 2.0 + c.rootDispersion;
    forall p: Passage, offset: real | p.times == e.passage.times && e.(passage := p).IsHonest(error)
                                      && IsTrueOffset(p, c.filtered, offset, now)
      ensures c.AsClaim(now).Holds(offset)
    {
      MeasurementError(p, error, Log2Seconds(e.localPrecision), Log2Seconds(e.serverPrecision));
      assert e.IsCovered(c.filtered);
      SameCover(e, p, c.filtered);
      HonestIsTrueChimer(c, e.(passage := p), offset, now, root);
    }
  }

  lemma SameCover(e: Evidence, p: Passage, f: Filtered)
    requires e.chosen < |e.samples| && p.times == e.passage.times && e.IsCovered(f)
    ensures e.(passage := p).IsCovered(f)
  {
  }

  /** When the estimate does not cover the readings, an honest world and a true offset in it that the claim misses. */
  lemma MissesSomewhere(c: Candidate, e: Evidence, now: real, root: real -> real) returns (p: Passage, offset: real)
    requires e.Supports(c.filtered, now, root)
    requires e.IsPossible(c.rootDelay / 2.0 + c.rootDispersion) && !e.IsCovered(c.filtered)
    ensures p.times == e.passage.times && e.(passage := p).IsHonest(c.rootDelay / 2.0 + c.rootDispersion)
    ensures IsTrueOffset(p, c.filtered, offset, now) && !c.AsClaim(now).Holds(offset)
  {
    EvidenceMeasures(e, c.filtered, now, root);
    p := MeasurementErrorIsTight(e.passage.times, c.rootDelay / 2.0 + c.rootDispersion,
                                 Log2Seconds(e.localPrecision), Log2Seconds(e.serverPrecision));
    offset := p.OffsetAtArrival() + PHI * Max(now - c.filtered.at, 0.0);
    hide Evidence.Supports, Reduce, Estimate, Log2Seconds;
    ClaimMisses(c, p, e, offset, now);
  }

  lemma ClaimMisses(c: Candidate, p: Passage, e: Evidence, offset: real, now: real)
    requires e.chosen < |e.samples| && p.times == e.passage.times && !e.IsCovered(c.filtered)
    requires c.filtered.offset == p.times.Offset()
    requires p.OffsetAtArrival() - p.times.Offset()
             == p.times.OnPath() / 2.0 + (c.rootDelay / 2.0 + c.rootDispersion) + e.samples[e.chosen].dispersion
    requires c.filtered.delay >= 0.001
    requires offset == p.OffsetAtArrival() + PHI * Max(now - c.filtered.at, 0.0)
    ensures IsTrueOffset(p, c.filtered, offset, now) && !c.AsClaim(now).Holds(offset)
  {
    hide Passage.OffsetAtArrival;
  }

  /** The proviso can fail: a server that admits to a one-second tick, in the one reply that
      came back fastest, is honest and yet misses, because its claim counts that tick at half. */
  lemma CoarseServerMisses(root: real -> real) returns (c: Candidate, e: Evidence)
    requires IsRoot(root)
    ensures e.Supports(c.filtered, c.filtered.at, root) && e.IsHonest(c.rootDelay / 2.0 + c.rootDispersion)
    ensures !c.AsClaim(c.filtered.at).Holds(e.passage.OffsetAtArrival())
  {
    var times := TrueTimes(0, 0, 0, 0x400_0000);
    ReduceExact(times, -20, 0, 1.0, 0.0);
    ReadingsAdd(times);
    assert times.RoundTrip() - times.Held() == 0.015625;
    var best := Reduce(times.OnTheWire(), -20, 0, 1.0, 0.0).value;
    var other := Sample(best.offset, 1.0, 0.0, 0.0);
    var samples := [best, other, other, other, other, other, other, other];
    CopiesEstimate(best, other, root);
    var p := MeasurementErrorIsTight(times, 0.0, Log2Seconds(-20), Log2Seconds(0));
    e := Evidence(samples, 0, p, -20, 0, 1.0);
    c := Candidate(0, Estimate(samples, 0.0, root), 1, 0.0, 0.0, true, false);
    assert Pow2(0) == 1.0 && best.dispersion > 1.0;
    EvidenceMeasures(e, c.filtered, 0.0, root);
  }

  lemma CopiesEstimate(best: Sample, other: Sample, root: real -> real)
    requires IsRoot(root) && best.delay < other.delay && best.offset == other.offset
    requires best.at == other.at == 0.0 && other.dispersion == 0.0
    ensures var samples := [best, other, other, other, other, other, other, other];
            var f := Estimate(samples, 0.0, root);
            f.dispersion == best.dispersion / 2.0 && f.jitter == MIN_DISPERSION
  {
    var samples := [best, other, other, other, other, other, other, other];
    var rest := samples[1..];
    SortCopies(rest, other);
    var ranked := Ranked(samples);
    assert ranked == samples;
    assert Pow2(1) == 2.0 && WeightedDispersion(ranked, 0, 0.0) == 0.0;
    CopiesAddNothing(ranked, other, NSTAGE);
    CopiesDoNotSpread(rest, best.offset);
    assert ranked[1..] == rest;
    assert root(0.0) * root(0.0) == 0.0;
  }

  lemma {:induction false} SortCopies(s: seq<Sample>, x: Sample)
    requires forall i :: 0 <= i < |s| ==> s[i] == x
    ensures Sort(s, ByDelay) == s
  {
    if s != [] {
      SortCopies(s[1..], x);
    }
  }

  lemma {:induction false} CopiesAddNothing(ranked: seq<Sample>, x: Sample, stages: nat)
    requires 0 < stages <= |ranked|
    requires x.dispersion == 0.0 && x.at == 0.0 && forall i :: 0 < i < |ranked| ==> ranked[i] == x
    ensures WeightedDispersion(ranked, stages, 0.0) == WeightedDispersion(ranked, 1, 0.0)
  {
    if stages > 1 {
      CopiesAddNothing(ranked, x, stages - 1);
    }
  }

  lemma {:induction false} CopiesDoNotSpread(s: seq<Sample>, centre: real)
    requires forall i :: 0 <= i < |s| ==> s[i].offset == centre
    ensures SquaresAbout(s, centre) == 0.0
  {
    if s != [] {
      CopiesDoNotSpread(s[..|s| - 1], centre);
    }
  }

  /** An honest candidate with some evidence to show for it. */
  ghost predicate IsHonestCandidate(c: Candidate, offset: real, now: real, bound: real, root: real -> real) {
    && c.Distance(now) <= bound
    && exists e: Evidence ::
         && e.Supports(c.filtered, now, root) && e.IsHonest(c.rootDelay / 2.0 + c.rootDispersion)
         && IsTrueOffset(e.passage, c.filtered, offset, now) && e.IsCovered(c.filtered)
  }

  lemma HonestCandidateChimes(c: Candidate, offset: real, now: real, bound: real, root: real -> real)
    requires IsHonestCandidate(c, offset, now, bound, root)
    ensures TrueChimer(now, offset, bound)(c)
  {
    var e: Evidence :| e.Supports(c.filtered, now, root) && e.IsHonest(c.rootDelay / 2.0 + c.rootDispersion)
                       && IsTrueOffset(e.passage, c.filtered, offset, now) && e.IsCovered(c.filtered);
    HonestIsTrueChimer(c, e, offset, now, root);
  }

  function Among(honest: set<Candidate>): Candidate -> bool {
    (c: Candidate) => c in honest
  }

  /** End to end: if a strict majority of the fit candidates rest on honest exchanges, the selected
      offset is within twice their largest root distance of the truth, whatever the others claim. */
  lemma HonestMajorityPrevails(candidates: seq<Candidate>, honest: set<Candidate>, s: Selected,
                               offset: real, now: real, bound: real, root: real -> real)
    requires IsSelection(candidates, now, root, Ok(s))
    requires forall c :: c in honest ==> IsHonestCandidate(c, offset, now, bound, root)
    requires 2 * CountIf(Fit(candidates, now), Among(honest)) > |Fit(candidates, now)|
    ensures Abs(s.offset - offset) <= 2.0 * bound
  {
    forall c | c in honest
      ensures TrueChimer(now, offset, bound)(c)
    {
      HonestCandidateChimes(c, offset, now, bound, root);
    }
    CountImplies(Fit(candidates, now), Among(honest), TrueChimer(now, offset, bound));
    ByzantineBound(candidates, now, root, s, offset, bound);
  }
}
