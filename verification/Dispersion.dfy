/** What an estimate's dispersion and jitter come to: how they age, weigh, and start out. */
module Dispersion {
  import opened Numbers
  import opened Sorting
  import opened Sample
  import opened Filter

  ghost predicate TakenBy(samples: seq<Sample>, now: real) {
    forall i :: 0 <= i < |samples| ==> samples[i].at <= now
  }

  // ----- ageing -----

  /** What n ranked samples gain in so many seconds: fifteen microseconds a second, less one part in 2^n. */
  function Gained(seconds: real, n: nat): real {
    0.000015 * seconds * (1.0 - 1.0 / Pow2(n))
  }

  /** While the samples lie in the past each grows by fifteen microseconds a second, weighted by its rank. */
  lemma {:induction false} StagesAge(ranked: seq<Sample>, stages: nat, now: real, later: real)
    requires TakenBy(ranked, now) && now <= later && stages <= |ranked|
    ensures WeightedDispersion(ranked, stages, later) - WeightedDispersion(ranked, stages, now)
            == Gained(later - now, stages)
  {
    if stages > 0 {
      StagesAge(ranked, stages - 1, now, later);
      var a, b := StageDispersion(ranked, stages - 1, now), StageDispersion(ranked, stages - 1, later);
      assert b - a == 0.000015 * (later - now);
      HalfOfTheRest(b - a, a, b, Pow2(stages - 1));
    }
  }

  lemma HalfOfTheRest(grown: real, a: real, b: real, weight: real)
    requires weight > 0.0 && b - a == grown
    ensures grown * (1.0 - 1.0 / weight) + (b / (2.0 * weight) - a / (2.0 * weight)) == grown * (1.0 - 1.0 / (2.0 * weight))
  {
    var h, w := 1.0 / (2.0 * weight), 2.0 * weight;
    assert h * w == 1.0;
    Inverse(weight, 2.0 * h);
    OverBy(a, w, h);
    OverBy(b, w, h);
    assert b * h - a * h == grown * h;
  }

  lemma Inverse(weight: real, h: real)
    requires weight > 0.0 && h * weight == 1.0
    ensures 1.0 / weight == h
  {
  }

  lemma OverBy(a: real, w: real, h: real)
    requires w > 0.0 && h * w == 1.0
    ensures a / w == a * h
  {
    var q := a / w;
    assert q * w == a;
    assert q == q * (h * w) == q * w * h;
  }

  /** Stages that hold nothing do not age. */
  lemma {:induction false} EmptyDoNotAge(ranked: seq<Sample>, stages: nat, now: real, later: real)
    requires |ranked| <= stages
    ensures WeightedDispersion(ranked, stages, later) - WeightedDispersion(ranked, stages, now)
            == WeightedDispersion(ranked, |ranked|, later) - WeightedDispersion(ranked, |ranked|, now)
  {
    if |ranked| < stages {
      EmptyDoNotAge(ranked, stages - 1, now, later);
    }
  }

  lemma EstimateGains(samples: seq<Sample>, now: real, later: real, root: real -> real)
    requires 0 < |samples| <= 8 && TakenBy(samples, now) && now <= later
    ensures var f, f' := Estimate(samples, now, root), Estimate(samples, later, root);
            && f'.dispersion - f.dispersion == Gained(later - now, |samples|)
            && f' == f.(dispersion := f'.dispersion)
  {
    hide WeightedDispersion, Spread, Pow2, Gained;
    SortPermutes(samples, ByDelay);
    RankedWereTaken(samples, now);
    StagesAge(Ranked(samples), |samples|, now, later);
    EmptyDoNotAge(Ranked(samples), 8, now, later);
  }

  /** An estimate ages: with n samples its dispersion grows by exactly fifteen microseconds a second,
      less one part in 2^n; and nothing else about it changes. */
  lemma EstimateAges(samples: seq<Sample>, now: real, later: real, root: real -> real)
    requires 0 < |samples| <= 8 && TakenBy(samples, now) && now <= later
    ensures var f, f' := Estimate(samples, now, root), Estimate(samples, later, root);
            && f'.dispersion == f.dispersion + 0.000015 * (later - now) * (1.0 - 1.0 / Pow2(|samples|))
            && f' == f.(dispersion := f'.dispersion)
  {
    hide Estimate;
    EstimateGains(samples, now, later, root);
    assert Gained(later - now, |samples|) == 0.000015 * (later - now) * (1.0 - 1.0 / Pow2(|samples|));
    hide *;
  }

  lemma RankedWereTaken(samples: seq<Sample>, now: real)
    requires TakenBy(samples, now)
    ensures TakenBy(Ranked(samples), now)
  {
    SortKeepsMembers(samples, ByDelay);
    var ranked := Ranked(samples);
    forall i | 0 <= i < |ranked|
      ensures ranked[i].at <= now
    {
      assert ranked[i] in ranked && ranked[i] in samples;
    }
  }

  /** So the root distance of a source that says nothing grows by fifteen microseconds a
      second for the estimate's own age, and again for what was held. */
  lemma DistanceAges(samples: seq<Sample>, rootDelay: Span, rootDispersion: Span, now: real, later: real, root: real -> real)
    requires 0 < |samples| <= 8 && TakenBy(samples, now) && now <= later
    ensures RootDistance(Estimate(samples, later, root), rootDelay, rootDispersion, later)
            - RootDistance(Estimate(samples, now, root), rootDelay, rootDispersion, now)
            == 0.000015 * (later - now) + Gained(later - now, |samples|)
  {
    EstimateGains(samples, now, later, root);
    hide Gained;
    var k := EstimateIsNewestLeastDelayed(samples, now, root);
    hide Estimate;
    assert samples[k].at <= now;
  }

  /** And its parts: half the delay to the source of time, of at least a millisecond, the source's dispersion
      and the estimate's, its jitter, and its age. */
  lemma DistanceParts(f: Filtered, rootDelay: Span, rootDispersion: Span, now: real)
    ensures var halved := RootDistance(f, rootDelay, rootDispersion, now) - rootDispersion - f.dispersion - f.jitter
                          - (if now > f.at then 0.000015 * (now - f.at) else 0.0);
            2.0 * halved == if rootDelay + f.delay >= 0.001 then rootDelay + f.delay else 0.001
  {
  }

  // ----- weights -----

  /** Only the rank of a sample decides what its own dispersion counts for: one part in two for the best,
      and half as much at each rank after it. */
  lemma {:induction false} RankWeighs(ranked: seq<Sample>, i: nat, more: real, stages: nat, now: real)
    requires i < |ranked| && more >= 0.0
    ensures var ranked' := ranked[i := ranked[i].(dispersion := ranked[i].dispersion + more)];
            WeightedDispersion(ranked', stages, now) - WeightedDispersion(ranked, stages, now)
            == if i < stages then more / Pow2(i + 1) else 0.0
  {
    var ranked' := ranked[i := ranked[i].(dispersion := ranked[i].dispersion + more)];
    if stages > 0 {
      RankWeighs(ranked, i, more, stages - 1, now);
      if stages == i + 1 {
        assert StageDispersion(ranked', i, now) == StageDispersion(ranked, i, now) + more;
        SumOver(StageDispersion(ranked, i, now), more, Pow2(stages));
      } else {
        assert StageDispersion(ranked', stages - 1, now) == StageDispersion(ranked, stages - 1, now);
      }
    }
  }

  lemma SumOver(a: real, b: real, d: real)
    requires d > 0.0
    ensures (a + b) / d == a / d + b / d
  {
    var h := 1.0 / d;
    assert h * d == 1.0;
    OverBy(a, d, h);
    OverBy(b, d, h);
    OverBy(a + b, d, h);
  }

  // ----- where it starts -----

  /** Of one dispersion d in n ranked samples, all but one part in 2^n counts. */
  function Own(d: real, n: nat): real {
    d * (1.0 - 1.0 / Pow2(n))
  }

  /** Sixteen seconds for each of the stages from n on that are empty. */
  function Unfilled(n: nat, stages: nat): real {
    16.0 * (1.0 / Pow2(n) - 1.0 / Pow2(stages))
  }

  ghost predicate AllDisperse(ranked: seq<Sample>, d: real, now: real) {
    forall i :: 0 <= i < |ranked| ==> ranked[i].dispersion == d && ranked[i].at >= now
  }

  lemma {:induction false} EqualStages(ranked: seq<Sample>, stages: nat, d: real, now: real)
    requires AllDisperse(ranked, d, now) && stages <= |ranked|
    ensures WeightedDispersion(ranked, stages, now) == Own(d, stages)
  {
    if stages > 0 {
      EqualStages(ranked, stages - 1, d, now);
      assert StageDispersion(ranked, stages - 1, now) == d;
      HalfOfTheRest(d, 0.0, d, Pow2(stages - 1));
      assert 0.0 / (2.0 * Pow2(stages - 1)) == 0.0;
    } else {
      assert 1.0 / Pow2(0) == 1.0;
    }
  }

  lemma {:induction false} EmptyRest(ranked: seq<Sample>, stages: nat, now: real)
    requires |ranked| <= stages
    ensures WeightedDispersion(ranked, stages, now) - WeightedDispersion(ranked, |ranked|, now)
            == Unfilled(|ranked|, stages)
  {
    if |ranked| < stages {
      EmptyRest(ranked, stages - 1, now);
      HalfOfTheRest(16.0, 0.0, 16.0, Pow2(stages - 1));
      assert 0.0 / (2.0 * Pow2(stages - 1)) == 0.0;
    }
  }

  lemma FreshStart(samples: seq<Sample>, d: real, now: real, root: real -> real)
    requires 0 < |samples| <= 8 && AllDisperse(samples, d, now)
    ensures Estimate(samples, now, root).dispersion
            == Own(d, |samples|) + Unfilled(|samples|, 8)
  {
    hide WeightedDispersion, Spread, Pow2, Own, Unfilled;
    SortPermutes(samples, ByDelay);
    RankedDisperse(samples, d, now);
    EqualStages(Ranked(samples), |samples|, d, now);
    EmptyRest(Ranked(samples), 8, now);
  }

  /** n fresh samples of one dispersion d: all of it but one part in 2^n, and sixteen seconds for each stage still empty. */
  lemma FreshDispersion(samples: seq<Sample>, d: real, now: real, root: real -> real)
    requires 0 < |samples| <= 8 && AllDisperse(samples, d, now)
    ensures Estimate(samples, now, root).dispersion
            == d * (1.0 - 1.0 / Pow2(|samples|)) + 16.0 * (1.0 / Pow2(|samples|) - 1.0 / 256.0)
  {
    hide Estimate;
    FreshStart(samples, d, now, root);
    Pow2OfEight();
    assert Own(d, |samples|) == d * (1.0 - 1.0 / Pow2(|samples|));
    assert Unfilled(|samples|, 8) == 16.0 * (1.0 / Pow2(|samples|) - 1.0 / 256.0);
    hide *;
  }

  /** A full register of one-millisecond samples starts just under a millisecond, and a
      thousand seconds of silence bring it to just under sixteen. */
  lemma SilenceInNumbers(samples: seq<Sample>, root: real -> real)
    requires |samples| == 8 && forall i :: 0 <= i < 8 ==> samples[i].dispersion == 0.001 && samples[i].at == 0.0
    ensures Estimate(samples, 0.0, root).dispersion == 0.00099609375
    ensures Estimate(samples, 1000.0, root).dispersion == 0.0159375
  {
    hide Estimate;
    FreshDispersion(samples, 0.001, 0.0, root);
    EstimateAges(samples, 0.0, 1000.0, root);
    Pow2OfEight();
  }

  /** A first sample leaves almost eight seconds of doubt beside half of its own. */
  lemma FirstInNumbers(sample: Sample, root: real -> real)
    ensures Estimate([sample], sample.at, root)
            == Filtered(sample.offset, sample.delay, sample.dispersion / 2.0 + 7.9375, 0.001, sample.at)
  {
    FreshDispersion([sample], sample.dispersion, sample.at, root);
    assert Pow2(1) == 2.0;
    hide WeightedDispersion;
    assert [sample][1..] == [] && Sort([sample][1..], ByDelay) == [];
    assert Ranked([sample]) == [sample];
  }

  lemma RankedDisperse(samples: seq<Sample>, d: real, now: real)
    requires AllDisperse(samples, d, now)
    ensures AllDisperse(Ranked(samples), d, now)
  {
    SortKeepsMembers(samples, ByDelay);
    var ranked := Ranked(samples);
    forall i | 0 <= i < |ranked|
      ensures ranked[i].dispersion == d && ranked[i].at >= now
    {
      assert ranked[i] in ranked && ranked[i] in samples;
    }
  }

  // ----- jitter -----

  /** One sample has no spread but the floor of a millisecond; two are as far from each other as they are. */
  lemma JitterOfFew(samples: seq<Sample>, now: real, root: real -> real)
    requires IsRoot(root) && samples != []
    ensures |samples| == 1 ==> Estimate(samples, now, root).jitter == 0.001
    ensures |samples| == 2 ==> Estimate(samples, now, root).jitter == Max(Abs(samples[1].offset - samples[0].offset), 0.001)
  {
    SortPermutes(samples, ByDelay);
    var ranked := Ranked(samples);
    if |samples| == 2 {
      PairSorts(samples);
      var d := ranked[1].offset - ranked[0].offset;
      assert ranked[1..][..0] == [] && ranked[1..][0] == ranked[1];
      assert SquaresAbout(ranked[1..], ranked[0].offset) == 0.0 + d * d;
      assert d * d / 1.0 == d * d;
      SquareIsSpan(d);
      RootOfSquare(d, root);
    }
  }

  lemma PairSorts(samples: seq<Sample>)
    requires |samples| == 2
    ensures Ranked(samples) == samples || Ranked(samples) == [samples[1], samples[0]]
  {
    var x, y := samples[0], samples[1];
    assert samples == [x, y] && samples[1..] == [y] && [y][1..] == [];
    assert Sort([], ByDelay) == [] && Sort([y], ByDelay) == Insert(y, [], ByDelay) == [y];
    assert Sort(samples, ByDelay) == Insert(x, [y], ByDelay);
    assert Insert(x, [], ByDelay) == [x];
  }

  lemma RootOfSquare(d: real, root: real -> real)
    requires IsRoot(root) && d * d >= 0.0
    ensures root(d * d) == Abs(d)
  {
    var r, a, dd := root(d * d), Abs(d), d * d;
    assert a * a == dd;
    assert r >= 0.0 && r * r == dd;
    SameSquares(r, a, dd);
  }

  lemma SameSquares(r: real, a: real, square: real)
    requires r >= 0.0 && a >= 0.0 && r * r == square && a * a == square
    ensures r == a
  {
    if r > a {
      Larger(r, a);
    } else if a > r {
      Larger(a, r);
    }
  }

  lemma Larger(a: real, b: real)
    requires a > b >= 0.0
    ensures a * a > b * b
  {
    assert a * a - b * b == (a - b) * (a + b);
    var c := (a - b) * (a + b);
    NegativeProduct(b - a, a + b, -c);
  }

  /** Floored at a millisecond; above that, squared, the mean of n squares that make up `sum`. */
  predicate IsMeanSquare(jitter: real, n: nat, sum: real) {
    jitter == 0.001 || (jitter > 0.001 && jitter * jitter * n as real == sum)
  }

  /** In general the jitter is the mean square distance of the others from the best, or the floor. */
  lemma JitterSquared(samples: seq<Sample>, now: real, root: real -> real)
    requires IsRoot(root) && |samples| > 1
    ensures var f, ranked := Estimate(samples, now, root), Ranked(samples);
            |ranked| == |samples| && f.offset == ranked[0].offset
            && IsMeanSquare(f.jitter, |samples| - 1, SquaresAbout(ranked[1..], ranked[0].offset))
  {
    hide SquaresAbout, WeightedDispersion, IsRoot, IsMeanSquare, Spread;
    SortPermutes(samples, ByDelay);
    SpreadSquared(Ranked(samples), root);
  }

  lemma SpreadSquared(ranked: seq<Sample>, root: real -> real)
    requires IsRoot(root) && |ranked| > 1
    ensures IsMeanSquare(Spread(ranked, root), |ranked| - 1, SquaresAbout(ranked[1..], ranked[0].offset))
  {
    hide SquaresAbout;
    var n, sum := (|ranked| - 1) as real, SquaresAbout(ranked[1..], ranked[0].offset);
    assert Spread(ranked, root) == Max(root(sum / n), 0.001);
    RootOfMean(sum, n, sum / n, root);
  }

  lemma RootOfMean(sum: real, n: real, mean: real, root: real -> real)
    requires IsRoot(root) && sum >= 0.0 && n > 0.0 && mean == sum / n
    ensures root(mean) * root(mean) * n == sum
  {
    assert mean * n == sum;
    if mean < 0.0 {
      NegativeProduct(mean, n, sum);
    }
    var r := root(mean);
    assert r * r == mean;
  }

  lemma NegativeProduct(a: real, n: real, c: real)
    requires a < 0.0 && n > 0.0 && c == a * n
    ensures c < 0.0
  {
  }
}
