/**
 Choosing what to believe (section 11.2 of RFC 5905): intersection, clustering,
 and the weighted mean of the survivors.
 */
module Selection {
  import opened Numbers
  import opened Sorting
  import opened Sample
  import opened Filter
  import opened Intersection

  const MAX_STRATUM: nat := 16
  const MAX_DISTANCE: real := 1.5
  const MIN_SURVIVORS: nat := 3

  /** Keeps a weight finite. */
  const DISTANCE_FLOOR: real := 0.000000001

  datatype Candidate = Candidate(
    id: nat, filtered: Filtered, stratum: nat, rootDelay: Span, rootDispersion: Span, usable: bool, prefer: bool)
  {
    function Distance(now: real): Span {
      RootDistance(filtered, rootDelay, rootDispersion, now)
    }

    predicate IsFit(now: real) {
      usable && stratum < MAX_STRATUM && Distance(now) < MAX_DISTANCE
    }

    function Metric(now: real): Span {
      MAX_DISTANCE * stratum as real + Distance(now)
    }

    function AsClaim(now: real): Claim {
      Claim(filtered.offset, Distance(now))
    }
  }

  datatype Selected = Selected(
    offset: real, jitter: real, systemPeer: nat, survivors: seq<nat>, falsetickers: seq<nat>)

  datatype NoSelection = NoCandidates | NoMajority

  // ----- the parts of a selection, as functions -----

  function Fit(candidates: seq<Candidate>, now: real): seq<Candidate> {
    if candidates == [] then []
    else
      var c := candidates[|candidates| - 1];
      Fit(candidates[..|candidates| - 1], now) + if c.IsFit(now) then [c] else []
  }

  function Claims(fit: seq<Candidate>, now: real): (r: seq<Claim>)
    ensures |r| == |fit|
    ensures forall i :: 0 <= i < |fit| ==> r[i] == fit[i].AsClaim(now)
  {
    seq(|fit|, i requires 0 <= i < |fit| => fit[i].AsClaim(now))
  }

  /** The candidates whose own offset is in the interval (`inside`), or is not. */
  function Part(fit: seq<Candidate>, i: Interval, inside: bool): seq<Candidate> {
    if fit == [] then []
    else
      var c := fit[|fit| - 1];
      Part(fit[..|fit| - 1], i, inside) + if (i.low <= c.filtered.offset <= i.high) == inside then [c] else []
  }

  function Ids(cs: seq<Candidate>): (r: seq<nat>)
    ensures |r| == |cs| && forall i :: 0 <= i < |cs| ==> r[i] == cs[i].id
  {
    seq(|cs|, i requires 0 <= i < |cs| => cs[i].id)
  }

  function OffsetSquares(cs: seq<Candidate>, centre: real): Span {
    if cs == [] then 0.0
    else
      var d := cs[|cs| - 1].filtered.offset - centre;
      SquareIsSpan(d);
      OffsetSquares(cs[..|cs| - 1], centre) + d * d
  }

  // ----- clustering -----

  /** RMS distance of the i-th survivor's offset from the others'. */
  function SelectionJitter(s: seq<Candidate>, i: nat, root: real -> real): real
    requires i < |s| && |s| > 1
  {
    root(OffsetSquares(s, s[i].filtered.offset) / (|s| - 1) as real)
  }

  function Weighted(s: seq<Candidate>, i: nat, now: real, root: real -> real): real
    requires i < |s| && |s| > 1
  {
    SelectionJitter(s, i, root) * s[i].Metric(now)
  }

  /** w is the first survivor with the greatest weighted selection jitter. */
  ghost predicate IsWorst(s: seq<Candidate>, w: nat, now: real, root: real -> real)
    requires |s| > 1
  {
    && w < |s|
    && (forall j :: 0 <= j < |s| ==> Weighted(s, j, now, root) <= Weighted(s, w, now, root))
    && (forall j :: 0 <= j < w ==> Weighted(s, j, now, root) < Weighted(s, w, now, root))
  }

  /** Nothing more to trim: the disagreement is below every source's own noise, or the outlier is preferred. */
  ghost predicate KeepsWorst(s: seq<Candidate>, w: nat, root: real -> real)
    requires w < |s| && |s| > 1
  {
    || (forall k :: 0 <= k < |s| ==> SelectionJitter(s, w, root) < s[k].filtered.jitter)
    || s[w].prefer
  }

  function Without<T>(s: seq<T>, w: nat): seq<T>
    requires w < |s|
  {
    s[..w] + s[w + 1..]
  }

  /** One pass of the clustering loop turns s into t. */
  ghost predicate Trims(s: seq<Candidate>, t: seq<Candidate>, now: real, root: real -> real) {
    && |s| > MIN_SURVIVORS
    && exists w :: 0 <= w < |s| && IsWorst(s, w, now, root) && !KeepsWorst(s, w, root) && t == Without(s, w)
  }

  ghost predicate Settled(s: seq<Candidate>, now: real, root: real -> real) {
    |s| > MIN_SURVIVORS ==> exists w :: 0 <= w < |s| && IsWorst(s, w, now, root) && KeepsWorst(s, w, root)
  }

  /** The lists the clustering loop passes through, first to last. */
  ghost predicate IsTrimming(trace: seq<seq<Candidate>>, now: real, root: real -> real) {
    && trace != []
    && (forall k :: 0 < k < |trace| ==> Trims(trace[k - 1], trace[k], now, root))
    && Settled(trace[|trace| - 1], now, root)
  }

  ghost predicate ClustersTo(s: seq<Candidate>, t: seq<Candidate>, now: real, root: real -> real) {
    exists trace :: IsTrimming(trace, now, root) && trace[0] == s && trace[|trace| - 1] == t
  }

  /** The clustering loop: it drops the worst survivor until none is due. */
  method Cluster(initial: seq<Candidate>, now: real, root: real -> real) returns (survivors: seq<Candidate>)
    ensures ClustersTo(initial, survivors, now, root)
  {
    survivors := initial;
    ghost var trace := [survivors];
    while |survivors| > MIN_SURVIVORS
      invariant trace != [] && trace[0] == initial && trace[|trace| - 1] == survivors
      invariant forall k :: 0 < k < |trace| ==> Trims(trace[k - 1], trace[k], now, root)
    {
      var worst, worstJitter, minPeerJitter := FindWorst(survivors, now, root);
      if worstJitter < minPeerJitter {
        break;
      }
      if survivors[worst].prefer {
        break;
      }
      assert !KeepsWorst(survivors, worst, root);
      survivors := Without(survivors, worst);
      trace := trace + [survivors];
    }
    assert IsTrimming(trace, now, root);
  }

  /** The inner loop: the arg-max, its selection jitter, and the least peer jitter. */
  method FindWorst(s: seq<Candidate>, now: real, root: real -> real)
    returns (worst: nat, worstJitter: real, minPeerJitter: real)
    requires |s| > 1
    ensures IsWorst(s, worst, now, root) && worstJitter == SelectionJitter(s, worst, root)
    ensures forall k :: 0 <= k < |s| ==> minPeerJitter <= s[k].filtered.jitter
    ensures exists k :: 0 <= k < |s| && minPeerJitter == s[k].filtered.jitter
  {
    var worstWeighted: Option<real> := None;
    worst, worstJitter, minPeerJitter := 0, 0.0, s[0].filtered.jitter;
    for i := 0 to |s|
      invariant 0 < i ==> worst < i && worstWeighted == Some(Weighted(s, worst, now, root))
                          && worstJitter == SelectionJitter(s, worst, root)
      invariant i == 0 ==> worst == 0 && worstWeighted.None?
      invariant worst < |s|
      invariant forall j :: 0 <= j < i ==> Weighted(s, j, now, root) <= Weighted(s, worst, now, root)
      invariant forall j :: 0 <= j < worst ==> Weighted(s, j, now, root) < Weighted(s, worst, now, root)
      invariant forall k :: 0 <= k < i ==> minPeerJitter <= s[k].filtered.jitter
      invariant exists k :: 0 <= k < |s| && minPeerJitter == s[k].filtered.jitter
    {
      var selectionJitter := SelectionJitter(s, i, root);
      var weighted := Weighted(s, i, now, root);
      if worstWeighted.None? || weighted > worstWeighted.value {
        worstWeighted := Some(weighted);
        worst := i;
        worstJitter := selectionJitter;
      }
      minPeerJitter := Min(minPeerJitter, s[i].filtered.jitter);
    }
  }

  lemma WorstIsUnique(s: seq<Candidate>, w: nat, w': nat, now: real, root: real -> real)
    requires |s| > 1 && IsWorst(s, w, now, root) && IsWorst(s, w', now, root)
    ensures w == w'
  {
    var a, b := Weighted(s, w, now, root), Weighted(s, w', now, root);
  }

  lemma TrimsOneWay(s: seq<Candidate>, t: seq<Candidate>, t': seq<Candidate>, now: real, root: real -> real)
    requires Trims(s, t, now, root)
    ensures !Settled(s, now, root)
    ensures Trims(s, t', now, root) ==> t == t'
  {
    hide IsWorst, KeepsWorst;
    var w :| 0 <= w < |s| && IsWorst(s, w, now, root) && !KeepsWorst(s, w, root) && t == Without(s, w);
    forall w' | 0 <= w' < |s| && IsWorst(s, w', now, root)
      ensures w == w'
    {
      WorstIsUnique(s, w, w', now, root);
    }
  }

  lemma {:induction false} TrimmingsAgree(a: seq<seq<Candidate>>, b: seq<seq<Candidate>>, k: nat, now: real, root: real -> real)
    requires IsTrimming(a, now, root) && IsTrimming(b, now, root) && a[0] == b[0] && k < |a|
    ensures k < |b| && a[k] == b[k]
  {
    hide Trims, Settled;
    if k > 0 {
      TrimmingsAgree(a, b, k - 1, now, root);
      TrimsOneWay(a[k - 1], a[k], if k < |b| then b[k] else a[k], now, root);
    }
  }

  /** What the clustering leaves is determined by what it is given. */
  lemma ClusteringIsUnique(s: seq<Candidate>, t: seq<Candidate>, t': seq<Candidate>, now: real, root: real -> real)
    requires ClustersTo(s, t, now, root) && ClustersTo(s, t', now, root)
    ensures t == t'
  {
    var a :| IsTrimming(a, now, root) && a[0] == s && a[|a| - 1] == t;
    var b :| IsTrimming(b, now, root) && b[0] == s && b[|b| - 1] == t';
    TrimmingsAgree(a, b, |a| - 1, now, root);
    TrimmingsAgree(b, a, |b| - 1, now, root);
  }

  // ----- combining -----

  function Weight(c: Candidate, now: real): (w: real)
    ensures w > 0.0
  {
    1.0 / Max(c.Distance(now), DISTANCE_FLOOR)
  }

  function WeightSum(s: seq<Candidate>, now: real): Span {
    if s == [] then 0.0 else WeightSum(s[..|s| - 1], now) + Weight(s[|s| - 1], now)
  }

  function OffsetSum(s: seq<Candidate>, now: real): real {
    if s == [] then 0.0
    else OffsetSum(s[..|s| - 1], now) + Weight(s[|s| - 1], now) * s[|s| - 1].filtered.offset
  }

  /** How hard the survivors pull on an offset between them: each by its distance
      from it, the harder the smaller its own root distance. */
  function Pull(offset: real, s: seq<Candidate>, now: real): real {
    if s == [] then 0.0
    else
      var c := s[|s| - 1];
      Pull(offset, s[..|s| - 1], now) + (offset - c.filtered.offset) / Max(c.Distance(now), 0.000000001)
  }

  /** The offset at which the pulls cancel. */
  ghost predicate IsWeightedMean(offset: real, s: seq<Candidate>, now: real) {
    s != [] && Pull(offset, s, now) == 0.0
  }

  lemma {:induction false} PullIsSums(offset: real, s: seq<Candidate>, now: real)
    ensures Pull(offset, s, now) == offset * WeightSum(s, now) - OffsetSum(s, now)
    ensures s != [] ==> WeightSum(s, now) > 0.0
  {
    hide *;
    if s == [] {
      NoPull(offset, now);
    } else {
      var before, x := s[..|s| - 1], s[|s| - 1].filtered.offset;
      PullIsSums(offset, before, now);
      OneMorePull(offset, s, now);
      PullStep(Pull(offset, before, now), offset, WeightSum(before, now), OffsetSum(before, now), Weight(s[|s| - 1], now), x,
               Pull(offset, s, now), WeightSum(s, now), OffsetSum(s, now));
    }
  }

  lemma NoPull(offset: real, now: real)
    ensures Pull(offset, [], now) == WeightSum([], now) == OffsetSum([], now) == 0.0
  {
  }

  lemma OneMorePull(offset: real, s: seq<Candidate>, now: real)
    requires s != []
    ensures var before, c := s[..|s| - 1], s[|s| - 1];
            && WeightSum(s, now) == WeightSum(before, now) + Weight(c, now) > 0.0
            && OffsetSum(s, now) == OffsetSum(before, now) + Weight(c, now) * c.filtered.offset
            && Pull(offset, s, now) == Pull(offset, before, now) + Weight(c, now) * (offset - c.filtered.offset)
  {
    hide Candidate.Distance;
    var c := s[|s| - 1];
    ShareOf(offset - c.filtered.offset, Max(c.Distance(now), 0.000000001));
  }

  lemma PullStep(pull: real, offset: real, weights: real, sum: real, w: real, x: real,
                 pull': real, weights': real, sum': real)
    requires pull == offset * weights - sum
    requires pull' == pull + w * (offset - x) && weights' == weights + w && sum' == sum + w * x
    ensures pull' == offset * weights' - sum'
  {
    assert offset * (weights + w) - (sum + w * x) == offset * weights - sum + w * (offset - x);
  }

  lemma MeanOfSums(offset: real, s: seq<Candidate>, now: real)
    ensures IsWeightedMean(offset, s, now)
            <==> s != [] && WeightSum(s, now) > 0.0 && offset * WeightSum(s, now) == OffsetSum(s, now)
  {
    PullIsSums(offset, s, now);
  }

  /** Two sources: each offset counts by the other's root distance, so the surer one counts more. */
  lemma TwoAreWeighed(offset: real, c: Candidate, d: Candidate, now: real)
    requires c.Distance(now) >= 0.000000001 && d.Distance(now) >= 0.000000001
    ensures IsWeightedMean(offset, [c, d], now)
            <==> offset * (c.Distance(now) + d.Distance(now))
                 == c.filtered.offset * d.Distance(now) + d.filtered.offset * c.Distance(now)
  {
    var near, far := c.Distance(now), d.Distance(now);
    assert [c, d][..1] == [c] && [c][..0] == [];
    assert Pull(offset, [], now) == 0.0;
    assert Pull(offset, [c], now) == (offset - c.filtered.offset) / near;
    assert Pull(offset, [c, d], now)
           == (offset - c.filtered.offset) / near + (offset - d.filtered.offset) / far;
    CrossMultiplied(offset - c.filtered.offset, offset - d.filtered.offset, near, far);
  }

  lemma CrossMultiplied(a: real, b: real, p: real, q: real)
    requires p > 0.0 && q > 0.0
    ensures a / p + b / q == 0.0 <==> a * q + b * p == 0.0
  {
    var u, v, pq := a / p, b / q, p * q;
    assert u * p == a && v * q == b;
    assert a * q == u * pq && b * p == v * pq;
    assert (u + v) * pq == u * pq + v * pq;
    if a * q + b * p == 0.0 {
      ZeroFactor(u + v, p, q);
    }
  }

  lemma ZeroFactor(x: real, p: real, q: real)
    requires p > 0.0 && q > 0.0 && x * (p * q) == 0.0
    ensures x == 0.0
  {
    var pq := p * q;
    assert pq > 0.0;
    SignOfFactor(x, pq);
    SignOfFactor(-x, pq);
  }

  method Combine(survivors: seq<Candidate>, now: real, root: real -> real) returns (offset: real, jitter: real)
    requires survivors != []
    ensures IsWeightedMean(offset, survivors, now)
    ensures jitter == SystemJitter(survivors, root)
  {
    hide Quadrature, OffsetSquares;
    offset := WeightedMean(survivors, now);
    var spread := SquaresFromHead(survivors);
    var n := |survivors|;
    var selectionJitter := if n > 1 then root(spread / (n - 1) as real) else 0.0;
    jitter := Quadrature(selectionJitter, survivors[0].filtered.jitter, root);
  }

  method WeightedMean(survivors: seq<Candidate>, now: real) returns (offset: real)
    requires survivors != []
    ensures IsWeightedMean(offset, survivors, now)
  {
    var weightSum, offsetSum := WeightedSums(survivors, now);
    offset := if weightSum > 0.0 then offsetSum / weightSum else 0.0;
    MeanOfSums(offset, survivors, now);
    hide WeightSum, OffsetSum, IsWeightedMean;
    QuotientTimes(offset, offsetSum, weightSum);
  }

  method WeightedSums(survivors: seq<Candidate>, now: real) returns (weightSum: Span, offsetSum: real)
    ensures weightSum == WeightSum(survivors, now) && offsetSum == OffsetSum(survivors, now)
    ensures survivors != [] ==> weightSum > 0.0
  {
    weightSum, offsetSum := 0.0, 0.0;
    for i := 0 to |survivors|
      invariant weightSum == WeightSum(survivors[..i], now) && offsetSum == OffsetSum(survivors[..i], now)
      invariant i > 0 ==> weightSum > 0.0
    {
      assert survivors[..i + 1][..i] == survivors[..i];
      var distance := Max(survivors[i].Distance(now), DISTANCE_FLOOR);
      ShareOf(survivors[i].filtered.offset, distance);
      weightSum := weightSum + 1.0 / distance;
      offsetSum := offsetSum + survivors[i].filtered.offset / distance;
    }
    assert survivors[..|survivors|] == survivors;
  }

  lemma QuotientTimes(q: real, a: real, b: real)
    requires b != 0.0 && q == a / b
    ensures q * b == a
  {
  }

  lemma ShareOf(offset: real, distance: real)
    requires distance > 0.0
    ensures offset / distance == 1.0 / distance * offset
  {
  }

  /** How far the survivors sit from the one chosen. */
  method SquaresFromHead(survivors: seq<Candidate>) returns (spread: Span)
    requires survivors != []
    ensures spread == OffsetSquares(survivors, survivors[0].filtered.offset)
  {
    var head := survivors[0].filtered.offset;
    spread := 0.0;
    for i := 0 to |survivors|
      invariant spread == OffsetSquares(survivors[..i], head)
    {
      assert survivors[..i + 1][..i] == survivors[..i];
      var d := survivors[i].filtered.offset - head;
      SquareIsSpan(d);
      spread := spread + d * d;
    }
    assert survivors[..|survivors|] == survivors;
  }

  function SystemJitter(s: seq<Candidate>, root: real -> real): real
    requires s != []
  {
    var spread := if |s| > 1 then SelectionJitter(s, 0, root) else 0.0;
    Quadrature(spread, s[0].filtered.jitter, root)
  }

  function Quadrature(a: real, b: real, root: real -> real): real {
    root(a * a + b * b)
  }

  lemma QuadratureSquared(a: real, b: real, root: real -> real)
    requires IsRoot(root)
    ensures Quadrature(a, b, root) >= 0.0
    ensures Quadrature(a, b, root) * Quadrature(a, b, root) == a * a + b * b
  {
    SquareIsSpan(a);
    SquareIsSpan(b);
    RootSquared(root, a * a + b * b);
  }

  lemma RootSquared(root: real -> real, x: real)
    requires IsRoot(root) && x >= 0.0
    ensures root(x) >= 0.0 && root(x) * root(x) == x
  {
  }

  /** The system jitter is the root of the survivors' mean square about the head plus the head's own squared. */
  lemma SystemJitterSquared(s: seq<Candidate>, root: real -> real)
    requires s != [] && IsRoot(root)
    ensures SystemJitter(s, root) >= 0.0
    ensures SystemJitter(s, root) * SystemJitter(s, root)
            == (if |s| > 1 then OffsetSquares(s, s[0].filtered.offset) / (|s| - 1) as real else 0.0)
               + s[0].filtered.jitter * s[0].filtered.jitter
  {
    hide Quadrature, IsRoot, OffsetSquares;
    if |s| > 1 {
      RootSquared(root, OffsetSquares(s, s[0].filtered.offset) / (|s| - 1) as real);
      QuadratureSquared(SelectionJitter(s, 0, root), s[0].filtered.jitter, root);
    } else {
      QuadratureSquared(0.0, s[0].filtered.jitter, root);
    }
  }

  // ----- the whole selection -----

  /** Preferred first, then the better metric. */
  predicate PeerOrder(now: real, a: Candidate, b: Candidate) {
    if a.prefer != b.prefer then a.prefer else a.Metric(now) <= b.Metric(now)
  }

  function ByPeerOrder(now: real): (Candidate, Candidate) -> bool {
    (a: Candidate, b: Candidate) => PeerOrder(now, a, b)
  }

  /** s is what the ordered survivors say. */
  ghost predicate Summarises(s: Selected, kept: seq<Candidate>, now: real, root: real -> real) {
    && kept != []
    && s.survivors == Ids(kept)
    && s.systemPeer == kept[0].id
    && IsWeightedMean(s.offset, kept, now)
    && s.jitter == SystemJitter(kept, root)
  }

  /** s is reported from the interval i and the survivors the clustering left. */
  ghost predicate Reports(s: Selected, fit: seq<Candidate>, i: Interval, trimmed: seq<Candidate>,
                          now: real, root: real -> real)
  {
    && IsIntersection(Claims(fit, now), Some(i))
    && ClustersTo(Part(fit, i, true), trimmed, now, root)
    && Summarises(s, Sort(trimmed, ByPeerOrder(now)), now, root)
    && s.falsetickers == Ids(Part(fit, i, false))
  }

  ghost predicate IsSelection(candidates: seq<Candidate>, now: real, root: real -> real,
                              r: Result<Selected, NoSelection>)
  {
    var fit := Fit(candidates, now);
    match r
    case Err(NoCandidates) => fit == []
    case Err(NoMajority) => fit != [] && IsIntersection(Claims(fit, now), None)
    case Ok(s) => exists i, trimmed :: Reports(s, fit, i, trimmed, now, root)
  }

  /** The outcome is determined by the candidates: the specification admits one. */
  lemma SelectionIsUnique(candidates: seq<Candidate>, now: real, root: real -> real,
                          r: Result<Selected, NoSelection>, r': Result<Selected, NoSelection>)
    requires IsSelection(candidates, now, root, r) && IsSelection(candidates, now, root, r')
    ensures r == r'
  {
    hide IsIntersection, ClustersTo, Summarises, Fit;
    var fit := Fit(candidates, now);
    if r.Ok? && r'.Ok? {
      var i, trimmed :| Reports(r.value, fit, i, trimmed, now, root);
      var i', trimmed' :| Reports(r'.value, fit, i', trimmed', now, root);
      IntersectionIsUnique(Claims(fit, now), Some(i), Some(i'));
      ClusteringIsUnique(Part(fit, i, true), trimmed, trimmed', now, root);
      SummaryIsUnique(r.value, r'.value, Sort(trimmed, ByPeerOrder(now)), now, root);
    } else {
      NoAnswerMeansNone(candidates, now, root, r, r');
      NoAnswerMeansNone(candidates, now, root, r', r);
    }
  }

  lemma NoAnswerMeansNone(candidates: seq<Candidate>, now: real, root: real -> real,
                          r: Result<Selected, NoSelection>, r': Result<Selected, NoSelection>)
    requires IsSelection(candidates, now, root, r) && IsSelection(candidates, now, root, r')
    ensures r.Ok? ==> r'.Ok?
  {
    hide ClustersTo, Summarises, Fit;
    if r.Ok? {
      var fit := Fit(candidates, now);
      var i, trimmed :| Reports(r.value, fit, i, trimmed, now, root);
      if r' == Err(NoMajority) {
        IntersectionIsUnique(Claims(fit, now), Some(i), None);
      }
    }
  }

  lemma SummaryIsUnique(s: Selected, s': Selected, kept: seq<Candidate>, now: real, root: real -> real)
    requires Summarises(s, kept, now, root) && Summarises(s', kept, now, root) && s.falsetickers == s'.falsetickers
    ensures s == s'
  {
    MeanOfSums(s.offset, kept, now);
    MeanOfSums(s'.offset, kept, now);
    SameQuotient(s.offset, s'.offset, WeightSum(kept, now));
  }

  lemma SameQuotient(a: real, b: real, weight: real)
    requires weight > 0.0 && a * weight == b * weight
    ensures a == b
  {
    assert (a - b) * weight == 0.0;
  }

  /** The branch for an agreed interval without survivors is not needed: NoMajority
      is returned only when the intersection has no answer. */
  method Select(candidates: seq<Candidate>, now: real, root: real -> real)
    returns (r: Result<Selected, NoSelection>)
    ensures IsSelection(candidates, now, root, r)
    ensures r.Ok? ==> WithinTwice(candidates, now, r.value.offset)
  {
    var fit := FilterFit(candidates, now);
    if fit == [] {
      return Err(NoCandidates);
    }
    var agreed := Intersect(Claims(fit, now));
    if agreed.None? {
      return Err(NoMajority);
    }
    var inside, outside := Divide(fit, agreed.value);
    SurvivorsAreMajority(fit, agreed.value, now);
    if inside == [] {
      return Err(NoMajority);
    }
    var trimmed := Cluster(inside, now, root);
    ClusterKeepsSome(inside, trimmed, now, root);
    var s := Summarise(trimmed, Ids(outside), now, root);
    assert Reports(s, fit, agreed.value, trimmed, now, root);
    r := Ok(s);
    StaysWithinTwice(candidates, now, root, s);
  }

  method Summarise(trimmed: seq<Candidate>, falsetickers: seq<nat>, now: real, root: real -> real)
    returns (s: Selected)
    requires trimmed != []
    ensures Summarises(s, Sort(trimmed, ByPeerOrder(now)), now, root) && s.falsetickers == falsetickers
  {
    var survivors := Sort(trimmed, ByPeerOrder(now));
    assert survivors != [] by {
      SortPermutes(trimmed, ByPeerOrder(now));
    }
    var offset, jitter := Combine(survivors, now, root);
    s := Selected(offset, jitter, survivors[0].id, Ids(survivors), falsetickers);
  }

  method FilterFit(candidates: seq<Candidate>, now: real) returns (fit: seq<Candidate>)
    ensures fit == Fit(candidates, now)
  {
    fit := [];
    for k := 0 to |candidates|
      invariant fit == Fit(candidates[..k], now)
    {
      assert candidates[..k + 1][..k] == candidates[..k];
      if candidates[k].IsFit(now) {
        fit := fit + [candidates[k]];
      }
    }
    assert candidates[..|candidates|] == candidates;
  }

  method Divide(fit: seq<Candidate>, i: Interval) returns (inside: seq<Candidate>, outside: seq<Candidate>)
    ensures inside == Part(fit, i, true) && outside == Part(fit, i, false)
  {
    inside, outside := [], [];
    for k := 0 to |fit|
      invariant inside == Part(fit[..k], i, true) && outside == Part(fit[..k], i, false)
    {
      assert fit[..k + 1][..k] == fit[..k];
      if fit[k].filtered.offset >= i.low && fit[k].filtered.offset <= i.high {
        inside := inside + [fit[k]];
      } else {
        outside := outside + [fit[k]];
      }
    }
    assert fit[..|fit|] == fit;
  }

  // ----- what a selection is worth -----

  lemma {:induction false} PartCounts(fit: seq<Candidate>, i: Interval, now: real)
    ensures |Part(fit, i, true)| == CountIf(Claims(fit, now), MidWithin(i.low, i.high))
    ensures |Part(fit, i, true)| + |Part(fit, i, false)| == |fit|
  {
    if fit != [] {
      PartCounts(fit[..|fit| - 1], i, now);
      assert Claims(fit, now)[..|fit| - 1] == Claims(fit[..|fit| - 1], now);
    }
  }

  /** Before clustering, the survivors are a strict majority of the fit candidates. */
  lemma SurvivorsAreMajority(fit: seq<Candidate>, i: Interval, now: real)
    requires IsIntersection(Claims(fit, now), Some(i))
    ensures 2 * |Part(fit, i, true)| > |fit|
    ensures 2 * |Part(fit, i, false)| < |fit|
  {
    PartCounts(fit, i, now);
    MajorityInside(Claims(fit, now), i);
  }

  lemma {:induction false} PartMembers(fit: seq<Candidate>, i: Interval, inside: bool)
    ensures forall c :: c in Part(fit, i, inside)
                        <==> c in fit && (i.low <= c.filtered.offset <= i.high) == inside
  {
    if fit != [] {
      PartMembers(fit[..|fit| - 1], i, inside);
      assert fit == fit[..|fit| - 1] + [fit[|fit| - 1]];
    }
  }

  lemma TrimKeeps(s: seq<Candidate>, t: seq<Candidate>, now: real, root: real -> real)
    requires Trims(s, t, now, root)
    ensures |t| == |s| - 1 && |t| >= MIN_SURVIVORS
    ensures multiset(t) <= multiset(s)
    ensures forall c :: c in s && c.prefer ==> c in t
  {
    hide IsWorst, SelectionJitter, Weighted;
    var w :| 0 <= w < |s| && IsWorst(s, w, now, root) && !KeepsWorst(s, w, root) && t == Without(s, w);
    assert s == s[..w] + [s[w]] + s[w + 1..];
    assert multiset(s) == multiset(t) + multiset{s[w]};
    forall c | c in s && c.prefer
      ensures c in t
    {
      assert c in multiset(s) && c != s[w];
    }
  }

  /** Clustering only removes, never a preferred source, and never below three. */
  lemma {:induction false} TrimmingKeeps(trace: seq<seq<Candidate>>, k: nat, now: real, root: real -> real)
    requires IsTrimming(trace, now, root) && k < |trace|
    ensures |trace[k]| == |trace[0]| - k
    ensures k > 0 ==> |trace[k]| >= MIN_SURVIVORS
    ensures multiset(trace[k]) <= multiset(trace[0])
    ensures forall c :: c in trace[0] && c.prefer ==> c in trace[k]
  {
    if k > 0 {
      TrimmingKeeps(trace, k - 1, now, root);
      TrimKeeps(trace[k - 1], trace[k], now, root);
    }
  }

  lemma ClusterKeeps(s: seq<Candidate>, t: seq<Candidate>, now: real, root: real -> real)
    requires ClustersTo(s, t, now, root)
    ensures |t| <= |s| && (|t| == |s| || |t| >= MIN_SURVIVORS)
    ensures multiset(t) <= multiset(s)
    ensures forall c :: c in s && c.prefer ==> c in t
    ensures Settled(t, now, root)
  {
    var trace :| IsTrimming(trace, now, root) && trace[0] == s && trace[|trace| - 1] == t;
    TrimmingKeeps(trace, |trace| - 1, now, root);
  }

  lemma ClusterKeepsSome(s: seq<Candidate>, t: seq<Candidate>, now: real, root: real -> real)
    requires ClustersTo(s, t, now, root) && s != []
    ensures t != []
    ensures forall c :: c in t ==> c in s
  {
    ClusterKeeps(s, t, now, root);
    forall c | c in t
      ensures c in s
    {
      assert c in multiset(t);
      assert c in multiset(s);
    }
  }

  /** The weighted mean stays between any bounds all the offsets respect. */
  lemma {:induction false} SumsAreConvex(s: seq<Candidate>, low: real, high: real, now: real)
    requires forall c :: c in s ==> low <= c.filtered.offset <= high
    ensures low * WeightSum(s, now) <= OffsetSum(s, now) <= high * WeightSum(s, now)
  {
    hide Weight;
    if s != [] {
      SumsAreConvex(s[..|s| - 1], low, high, now);
      var w, x := Weight(s[|s| - 1], now), s[|s| - 1].filtered.offset;
      assert s[|s| - 1] in s;
      ConvexStep(low, high, WeightSum(s[..|s| - 1], now), OffsetSum(s[..|s| - 1], now), w, x);
    }
  }

  lemma ConvexStep(low: real, high: real, weights: real, sum: real, w: real, x: real)
    requires low * weights <= sum <= high * weights && w > 0.0 && low <= x <= high
    ensures low * (weights + w) <= sum + w * x <= high * (weights + w)
  {
    assert low * w <= w * x <= high * w;
  }

  lemma Quotient(offset: real, weight: real, sum: real, low: real, high: real)
    requires weight > 0.0 && low * weight <= sum <= high * weight && offset * weight == sum
    ensures low <= offset <= high
  {
    SignOfFactor(offset - low, weight);
    SignOfFactor(high - offset, weight);
  }

  lemma SignOfFactor(x: real, weight: real)
    requires weight > 0.0 && x * weight >= 0.0
    ensures x >= 0.0
  {
  }

  /** The ordered survivors are among those whose offsets the interval holds. */
  lemma KeptAreInside(fit: seq<Candidate>, i: Interval, trimmed: seq<Candidate>, now: real, root: real -> real)
    requires ClustersTo(Part(fit, i, true), trimmed, now, root)
    ensures forall c :: c in Sort(trimmed, ByPeerOrder(now)) ==> c in fit && i.low <= c.filtered.offset <= i.high
    ensures forall c :: c in Sort(trimmed, ByPeerOrder(now)) <==> c in trimmed
  {
    ClusterKeeps(Part(fit, i, true), trimmed, now, root);
    if Part(fit, i, true) != [] {
      ClusterKeepsSome(Part(fit, i, true), trimmed, now, root);
    }
    SortKeepsMembers(trimmed, ByPeerOrder(now));
    PartMembers(fit, i, true);
  }

  lemma MeanInside(offset: real, kept: seq<Candidate>, low: real, high: real, now: real)
    requires IsWeightedMean(offset, kept, now)
    requires forall c :: c in kept ==> low <= c.filtered.offset <= high
    ensures low <= offset <= high
  {
    hide WeightSum, OffsetSum, IsWeightedMean;
    SumsAreConvex(kept, low, high, now);
    MeanOfSums(offset, kept, now);
    Quotient(offset, WeightSum(kept, now), OffsetSum(kept, now), low, high);
  }

  lemma SelectedInside(s: Selected, fit: seq<Candidate>, i: Interval, trimmed: seq<Candidate>,
                       now: real, root: real -> real)
    requires Reports(s, fit, i, trimmed, now, root)
    ensures i.low <= s.offset <= i.high
    ensures trimmed != []
  {
    var kept := Sort(trimmed, ByPeerOrder(now));
    KeptAreInside(fit, i, trimmed, now, root);
    MeanInside(s.offset, kept, i.low, i.high, now);
  }

  /** A fit candidate that is right about t and no vaguer than `bound`. */
  function TrueChimer(now: real, t: real, bound: real): Candidate -> bool {
    (c: Candidate) => c.AsClaim(now).Holds(t) && c.Distance(now) <= bound
  }

  lemma {:induction false} TrueChimersClaim(fit: seq<Candidate>, now: real, t: real, bound: real)
    ensures CountIf(fit, TrueChimer(now, t, bound)) == CountIf(Claims(fit, now), Truthful(t, bound))
  {
    if fit != [] {
      TrueChimersClaim(fit[..|fit| - 1], now, t, bound);
      assert Claims(fit, now)[..|fit| - 1] == Claims(fit[..|fit| - 1], now);
    }
  }

  /** The Byzantine bound: whatever the minority claims, if a strict majority of the fit
      candidates hold the true offset t within a root distance of at most `bound`,
      the combined offset is within 2 * bound of t. */
  lemma ByzantineBound(candidates: seq<Candidate>, now: real, root: real -> real, s: Selected, t: real, bound: real)
    requires IsSelection(candidates, now, root, Ok(s))
    requires 2 * CountIf(Fit(candidates, now), TrueChimer(now, t, bound)) > |Fit(candidates, now)|
    ensures Abs(s.offset - t) <= 2.0 * bound
  {
    var fit := Fit(candidates, now);
    var i, trimmed :| Reports(s, fit, i, trimmed, now, root);
    hide IsIntersection, ClustersTo, Summarises, CountIf, Truthful, Claims, Fit;
    SelectedInside(s, fit, i, trimmed, now, root);
    TrueChimersClaim(fit, now, t, bound);
    EdgesNearTruth(Claims(fit, now), i, t, bound);
  }

  /** Wherever the truth is: if a strict majority of the fit holds it, `offset` misses it by at most
      twice the largest distance among them. */
  ghost predicate WithinTwice(candidates: seq<Candidate>, now: real, offset: real) {
    forall t, bound | 2 * CountIf(Fit(candidates, now), TrueChimer(now, t, bound)) > |Fit(candidates, now)| ::
      Abs(offset - t) <= 2.0 * bound
  }

  lemma StaysWithinTwice(candidates: seq<Candidate>, now: real, root: real -> real, s: Selected)
    requires IsSelection(candidates, now, root, Ok(s))
    ensures WithinTwice(candidates, now, s.offset)
  {
    forall t, bound | 2 * CountIf(Fit(candidates, now), TrueChimer(now, t, bound)) > |Fit(candidates, now)|
      ensures Abs(s.offset - t) <= 2.0 * bound
    {
      ByzantineBound(candidates, now, root, s, t, bound);
    }
  }

  /** An operator's preference wins the peer seat exactly when some preferred candidate
      passes the intersection; otherwise the peer has the least metric of the survivors. */
  lemma PeerChoice(s: Selected, fit: seq<Candidate>, i: Interval, trimmed: seq<Candidate>,
                   now: real, root: real -> real) returns (peer: Candidate)
    requires Reports(s, fit, i, trimmed, now, root)
    ensures peer in trimmed && peer.id == s.systemPeer
    ensures peer.prefer <==> exists c :: c in Part(fit, i, true) && c.prefer
    ensures forall c :: c in trimmed && c.prefer == peer.prefer ==>
              1.5 * peer.stratum as real + peer.Distance(now) <= 1.5 * c.stratum as real + c.Distance(now)
  {
    SelectedInside(s, fit, i, trimmed, now, root);
    ClusterKeeps(Part(fit, i, true), trimmed, now, root);
    ClusterKeepsSome(Part(fit, i, true), trimmed, now, root);
    peer := HeadOfPeers(trimmed, now);
    if c :| c in Part(fit, i, true) && c.prefer {
      assert PeerOrder(now, peer, c);
    }
  }

  lemma HeadOfPeers(trimmed: seq<Candidate>, now: real) returns (peer: Candidate)
    requires trimmed != []
    ensures Sort(trimmed, ByPeerOrder(now)) != [] && peer == Sort(trimmed, ByPeerOrder(now))[0]
    ensures peer in trimmed && forall c :: c in trimmed ==> PeerOrder(now, peer, c)
  {
    var k := SortHead(trimmed, ByPeerOrder(now));
    peer := trimmed[k];
    forall c | c in trimmed
      ensures PeerOrder(now, peer, c)
    {
      var j :| 0 <= j < |trimmed| && trimmed[j] == c;
      assert ByPeerOrder(now)(trimmed[k], trimmed[j]);
    }
  }

  lemma {:induction false} FitMembers(candidates: seq<Candidate>, now: real)
    ensures forall c :: c in Fit(candidates, now) <==> c in candidates && c.IsFit(now)
  {
    if candidates != [] {
      FitMembers(candidates[..|candidates| - 1], now);
      assert candidates == candidates[..|candidates| - 1] + [candidates[|candidates| - 1]];
    }
  }

  /** Among sources of its kind the peer's stratum is the lowest, however sure the others are of their offsets. */
  lemma LowestStratumLeads(s: Selected, candidates: seq<Candidate>, i: Interval, trimmed: seq<Candidate>,
                           now: real, root: real -> real) returns (peer: Candidate)
    requires Reports(s, Fit(candidates, now), i, trimmed, now, root)
    ensures peer in trimmed && peer.id == s.systemPeer
    ensures forall c :: c in trimmed && c.prefer == peer.prefer ==> peer.stratum <= c.stratum
  {
    var fit := Fit(candidates, now);
    peer := PeerChoice(s, fit, i, trimmed, now, root);
    KeptAreInside(fit, i, trimmed, now, root);
    FitMembers(candidates, now);
    forall c | c in trimmed && c.prefer == peer.prefer
      ensures peer.stratum <= c.stratum
    {
      assert c in Sort(trimmed, ByPeerOrder(now)) && peer in Sort(trimmed, ByPeerOrder(now));
      assert c.Distance(now) < 1.5;
    }
  }

  /** Who is heard at all: nobody, exactly when every source is unusable, at stratum 16 or
      beyond, or at a root distance of 1.5 s or more. */
  lemma NobodyIsFit(candidates: seq<Candidate>, now: real, root: real -> real)
    ensures IsSelection(candidates, now, root, Err(NoCandidates))
            <==> forall c :: c in candidates ==> !c.usable || c.stratum >= 16 || c.Distance(now) >= 1.5
  {
    FitMembers(candidates, now);
    if Fit(candidates, now) != [] {
      assert Fit(candidates, now)[0] in Fit(candidates, now);
    }
  }

  /** And every source reported, believed or not, is none of these. */
  lemma OnlyTheFitAreReported(candidates: seq<Candidate>, now: real, root: real -> real, s: Selected, id: nat)
    returns (c: Candidate)
    requires IsSelection(candidates, now, root, Ok(s)) && (id in s.survivors || id in s.falsetickers)
    ensures c in candidates && c.id == id && c.usable && c.stratum < 16 && c.Distance(now) < 1.5
  {
    var fit := Fit(candidates, now);
    var i, trimmed :| Reports(s, fit, i, trimmed, now, root);
    KeptAreInside(fit, i, trimmed, now, root);
    PartMembers(fit, i, false);
    FitMembers(candidates, now);
    var from := if id in s.survivors then Sort(trimmed, ByPeerOrder(now)) else Part(fit, i, false);
    var k :| 0 <= k < |from| && from[k].id == id;
    c := from[k];
    assert c in from;
  }

  /** The trimming's disagreement of one survivor: its mean square distance from the others. */
  lemma SelectionJitterSquared(s: seq<Candidate>, i: nat, root: real -> real)
    requires IsRoot(root) && i < |s| && |s| > 1
    ensures SelectionJitter(s, i, root) >= 0.0
    ensures SelectionJitter(s, i, root) * SelectionJitter(s, i, root) * (|s| - 1) as real
            == OffsetSquares(s, s[i].filtered.offset)
  {
    hide OffsetSquares;
    var n := (|s| - 1) as real;
    var q := OffsetSquares(s, s[i].filtered.offset) / n;
    assert q * n == OffsetSquares(s, s[i].filtered.offset);
    QuotientIsSpan(OffsetSquares(s, s[i].filtered.offset), n);
    RootSquared(root, q);
  }

  lemma QuotientIsSpan(a: real, b: real)
    requires a >= 0.0 && b > 0.0
    ensures a / b >= 0.0
  {
    var q := a / b;
    assert q * b == a;
    SignOfFactor(q, b);
  }

  /** Of two survivors each is as far from the rest as they are apart; of three, the sum is over the other two. */
  lemma SquaresOfFew(s: seq<Candidate>, centre: real)
    ensures |s| == 2 ==> OffsetSquares(s, centre) == Squared(s[0].filtered.offset - centre) + Squared(s[1].filtered.offset - centre)
    ensures |s| == 3 ==> OffsetSquares(s, centre) == Squared(s[0].filtered.offset - centre) + Squared(s[1].filtered.offset - centre)
                                                     + Squared(s[2].filtered.offset - centre)
  {
    if |s| == 2 {
      TwoSquares(s, centre);
    } else if |s| == 3 {
      TwoSquares(s[..2], centre);
    }
  }

  lemma TwoSquares(s: seq<Candidate>, centre: real)
    requires |s| == 2
    ensures OffsetSquares(s, centre) == Squared(s[0].filtered.offset - centre) + Squared(s[1].filtered.offset - centre)
  {
    assert s[..1][..0] == [];
    assert OffsetSquares(s[..1], centre) == 0.0 + Squared(s[0].filtered.offset - centre);
  }

  function Squared(x: real): real { x * x }

  /** A survivor's disagreement with the rest, times its own figure of merit: 1.5 s a stratum and its root distance. */
  function Nuisance(s: seq<Candidate>, i: nat, now: real, root: real -> real): real
    requires i < |s| && |s| > 1
  {
    SelectionJitter(s, i, root) * (1.5 * s[i].stratum as real + s[i].Distance(now))
  }

  /** What a pass of the trimming removes, while more than three are left: the first of the greatest
      nuisances, not preferred, its disagreement no less than some survivor's own jitter. */
  lemma TrimsTheWorst(s: seq<Candidate>, t: seq<Candidate>, now: real, root: real -> real) returns (w: nat)
    requires Trims(s, t, now, root)
    ensures |s| > 3 && w < |s| && t == s[..w] + s[w + 1..] && !s[w].prefer
    ensures forall j :: 0 <= j < |s| ==> Nuisance(s, j, now, root) <= Nuisance(s, w, now, root)
    ensures forall j :: 0 <= j < w ==> Nuisance(s, j, now, root) < Nuisance(s, w, now, root)
    ensures exists k :: 0 <= k < |s| && s[k].filtered.jitter <= SelectionJitter(s, w, root)
  {
    w :| 0 <= w < |s| && IsWorst(s, w, now, root) && !KeepsWorst(s, w, root) && t == Without(s, w);
    WorstIsGreatest(s, w, now, root);
  }

  /** And when it stops with more than three: the greatest nuisance is preferred, or
      disagrees with the rest by less than any survivor's own jitter. */
  lemma StopsAtTheWorst(s: seq<Candidate>, t: seq<Candidate>, now: real, root: real -> real) returns (w: nat)
    requires ClustersTo(s, t, now, root) && |t| > 3
    ensures w < |t| && forall j :: 0 <= j < |t| ==> Nuisance(t, j, now, root) <= Nuisance(t, w, now, root)
    ensures t[w].prefer || forall k :: 0 <= k < |t| ==> SelectionJitter(t, w, root) < t[k].filtered.jitter
  {
    ClusterKeeps(s, t, now, root);
    w :| 0 <= w < |t| && IsWorst(t, w, now, root) && KeepsWorst(t, w, root);
    WorstIsGreatest(t, w, now, root);
  }

  lemma WorstIsGreatest(s: seq<Candidate>, w: nat, now: real, root: real -> real)
    requires |s| > 1 && IsWorst(s, w, now, root)
    ensures forall j :: 0 <= j < |s| ==> Nuisance(s, j, now, root) <= Nuisance(s, w, now, root)
    ensures forall j :: 0 <= j < w ==> Nuisance(s, j, now, root) < Nuisance(s, w, now, root)
  {
    hide SelectionJitter, Weighted, Nuisance, Candidate.Distance;
    forall j | 0 <= j < |s|
      ensures Weighted(s, j, now, root) == Nuisance(s, j, now, root)
    {
      WeighedBy(s, j, now, root);
    }
  }

  lemma WeighedBy(s: seq<Candidate>, i: nat, now: real, root: real -> real)
    requires i < |s| && |s| > 1
    ensures Weighted(s, i, now, root) == Nuisance(s, i, now, root)
  {
    hide SelectionJitter, Candidate.Distance;
  }

  /** With distinct identities, no source is both believed and denounced, and the peer is believed. */
  lemma VerdictsAreDisjoint(candidates: seq<Candidate>, now: real, root: real -> real, s: Selected)
    requires IsSelection(candidates, now, root, Ok(s))
    requires forall c, d :: c in candidates && d in candidates && c.id == d.id ==> c == d
    ensures s.systemPeer in s.survivors
    ensures forall id :: id in s.survivors ==> id !in s.falsetickers
    ensures 2 * |s.falsetickers| < |Fit(candidates, now)|
  {
    var fit := Fit(candidates, now);
    var i, trimmed :| Reports(s, fit, i, trimmed, now, root);
    SelectedInside(s, fit, i, trimmed, now, root);
    KeptAreInside(fit, i, trimmed, now, root);
    SurvivorsAreMajority(fit, i, now);
    FitMembers(candidates, now);
    PartMembers(fit, i, false);
    assert s.survivors[0] == s.systemPeer;
    IdsApart(Sort(trimmed, ByPeerOrder(now)), Part(fit, i, false), candidates, i);
  }

  /** Who is denounced: every fit source whose own offset lies outside the interval agreed on, and no other. */
  lemma FalsetickersExactly(candidates: seq<Candidate>, now: real, root: real -> real, s: Selected) returns (i: Interval)
    requires IsSelection(candidates, now, root, Ok(s))
    ensures IsIntersection(Claims(Fit(candidates, now), now), Some(i))
    ensures forall c :: c in candidates && c.IsFit(now) && (c.filtered.offset < i.low || c.filtered.offset > i.high)
                        ==> c.id in s.falsetickers
    ensures forall id :: id in s.falsetickers ==>
              exists c :: c in candidates && c.id == id && c.IsFit(now) && (c.filtered.offset < i.low || c.filtered.offset > i.high)
  {
    hide IsIntersection, ClustersTo, Summarises, Candidate.IsFit;
    var fit := Fit(candidates, now);
    var j, trimmed :| Reports(s, fit, j, trimmed, now, root);
    i := j;
    var outside := Part(fit, i, false);
    PartMembers(fit, i, false);
    FitMembers(candidates, now);
    forall c | c in outside
      ensures c.id in s.falsetickers
    {
      var k :| 0 <= k < |outside| && outside[k] == c;
      assert Ids(outside)[k] == c.id;
    }
    forall id | id in s.falsetickers
      ensures exists c :: c in candidates && c.id == id && c.IsFit(now) && (c.filtered.offset < i.low || c.filtered.offset > i.high)
    {
      var k :| 0 <= k < |outside| && Ids(outside)[k] == id;
      assert outside[k] in outside && outside[k].id == id;
    }
  }

  /** And who is believed: the survivors of the trimming, each once, the peer first. */
  lemma SurvivorsExactly(s: Selected, fit: seq<Candidate>, i: Interval, trimmed: seq<Candidate>, now: real, root: real -> real)
    requires Reports(s, fit, i, trimmed, now, root)
    ensures |s.survivors| == |trimmed| > 0 && s.survivors[0] == s.systemPeer
    ensures forall c :: c in trimmed ==> c.id in s.survivors
    ensures forall id :: id in s.survivors ==> exists c :: c in trimmed && c.id == id
  {
    hide IsIntersection, ClustersTo, IsWeightedMean, SystemJitter;
    var kept := Sort(trimmed, ByPeerOrder(now));
    SortPermutes(trimmed, ByPeerOrder(now));
    SortKeepsMembers(trimmed, ByPeerOrder(now));
    forall c | c in trimmed
      ensures c.id in s.survivors
    {
      assert c in kept;
      var k :| 0 <= k < |kept| && kept[k] == c;
      assert Ids(kept)[k] == c.id;
    }
    forall id | id in s.survivors
      ensures exists c :: c in trimmed && c.id == id
    {
      var k :| 0 <= k < |kept| && Ids(kept)[k] == id;
      assert kept[k] in kept && kept[k].id == id;
    }
  }

  lemma IdsApart(kept: seq<Candidate>, outside: seq<Candidate>, candidates: seq<Candidate>, i: Interval)
    requires forall c, d :: c in candidates && d in candidates && c.id == d.id ==> c == d
    requires forall c :: c in kept ==> c in candidates && i.low <= c.filtered.offset <= i.high
    requires forall c :: c in outside ==> c in candidates && !(i.low <= c.filtered.offset <= i.high)
    ensures forall id :: id in Ids(kept) ==> id !in Ids(outside)
  {
    forall id | id in Ids(kept)
      ensures id !in Ids(outside)
    {
      var a :| 0 <= a < |kept| && kept[a].id == id;
      assert kept[a] in kept;
      forall b | 0 <= b < |outside|
        ensures outside[b].id != id
      {
        assert outside[b] in outside;
      }
    }
  }

  // ----- fitness -----

  /** With fewer than four samples the empty stages alone make a source unfit. */
  lemma FewSamplesAreUnfit(c: Candidate, samples: seq<Sample>, now: real, root: real -> real)
    requires 0 < |samples| < 4 && c.filtered == Estimate(samples, now, root)
    ensures c.Distance(now) > 1.9 && !c.IsFit(now)
  {
    var ranked := Ranked(samples);
    SortPermutes(samples, ByDelay);
    assert Pow2(4) == 16.0;
    EmptyStages(ranked, 3, 4, now);
    EmptyStages(ranked, 4, 5, now);
    EmptyStages(ranked, 5, 6, now);
    EmptyStages(ranked, 6, 7, now);
    EmptyStages(ranked, 7, 8, now);
    assert Pow2(5) == 32.0;
    assert Pow2(6) == 64.0;
    assert Pow2(7) == 128.0;
    assert Pow2(8) == 256.0;
  }

  lemma EmptyStages(ranked: seq<Sample>, i: nat, j: nat, now: real)
    requires j == i + 1 && |ranked| <= i
    ensures WeightedDispersion(ranked, j, now) == WeightedDispersion(ranked, i, now) + MAX_DISPERSION / Pow2(j)
  {
  }

  lemma {:induction false} DispersionGrows(ranked: seq<Sample>, stages: nat, now: real, later: real)
    requires now <= later
    ensures WeightedDispersion(ranked, stages, now) <= WeightedDispersion(ranked, stages, later)
  {
    if stages > 0 {
      DispersionGrows(ranked, stages - 1, now, later);
      DivisionGrows(StageDispersion(ranked, stages - 1, now), StageDispersion(ranked, stages - 1, later), Pow2(stages));
    }
  }

  lemma DivisionGrows(a: real, b: real, d: real)
    requires a <= b && d > 0.0
    ensures a / d <= b / d
  {
    assert b / d - a / d == (b - a) / d;
  }

  /** Silence is never rewarded: while no sample arrives the root distance does not shrink,
      so a source unfit by distance stays unfit, and every source is unfit
      100 000 s after its best sample. */
  lemma SilenceNeverHelps(samples: seq<Sample>, rootDelay: Span, rootDispersion: Span,
                          now: real, later: real, root: real -> real)
    requires samples != [] && now <= later
    ensures RootDistance(Estimate(samples, now, root), rootDelay, rootDispersion, now)
            <= RootDistance(Estimate(samples, later, root), rootDelay, rootDispersion, later)
    ensures later - Estimate(samples, later, root).at >= 100_000.0
            ==> RootDistance(Estimate(samples, later, root), rootDelay, rootDispersion, later) >= MAX_DISTANCE
  {
    SortPermutes(samples, ByDelay);
    DispersionGrows(Ranked(samples), NSTAGE, now, later);
  }
}
