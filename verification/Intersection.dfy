/**
 The intersection step of selection (section 11.2.1 of RFC 5905): a sort, two
 counting sweeps and a rising number of allowed falsetickers, proved against a
 statement about how many closed intervals cover a point.
 */
module Intersection {
  import opened Numbers
  import opened Sorting

  /** What one source promises: the true offset is within `radius` of `mid`. */
  datatype Claim = Claim(mid: real, radius: Span) {
    function Lower(): real { mid - radius }
    function Upper(): real { mid + radius }
    predicate Holds(x: real) { Lower() <= x <= Upper() }
    function Mirrored(): Claim { Claim(-mid, radius) }
  }

  datatype Interval = Interval(low: real, high: real)

  datatype Kind = Lower | Mid | Upper {
    /** The number the sort and the sweeps use. */
    function Sign(): int {
      match this
      case Lower => -1
      case Mid => 0
      case Upper => 1
    }

    function Mirrored(): Kind {
      match this
      case Lower => Upper
      case Mid => Mid
      case Upper => Lower
    }
  }

  datatype Endpoint = Endpoint(edge: real, kind: Kind) {
    function Mirrored(): Endpoint { Endpoint(-edge, kind.Mirrored()) }
  }

  // ----- the specification -----

  function CoversAt(x: real): Claim -> bool {
    (c: Claim) => c.Holds(x)
  }

  function MidBelow(x: real): Claim -> bool {
    (c: Claim) => c.mid < x
  }

  function MidAbove(x: real): Claim -> bool {
    (c: Claim) => c.mid > x
  }

  function MidWithin(low: real, high: real): Claim -> bool {
    (c: Claim) => low <= c.mid <= high
  }

  /** How many claims admit x. */
  function Coverage(cs: seq<Claim>, x: real): nat {
    CountIf(cs, CoversAt(x))
  }

  ghost predicate Leftmost(cs: seq<Claim>, need: int, x: real) {
    Coverage(cs, x) >= need && forall y :: y < x ==> Coverage(cs, y) < need
  }

  ghost predicate Rightmost(cs: seq<Claim>, need: int, x: real) {
    Coverage(cs, x) >= need && forall y :: y > x ==> Coverage(cs, y) < need
  }

  /** [low, high] runs from the first to the last point that all but `allow`
      claims cover, has length, and leaves out at most `allow` midpoints. */
  ghost predicate Agreement(cs: seq<Claim>, allow: nat, low: real, high: real) {
    && Leftmost(cs, |cs| - allow, low)
    && Rightmost(cs, |cs| - allow, high)
    && low < high
    && CountIf(cs, MidBelow(low)) + CountIf(cs, MidAbove(high)) <= allow
  }

  ghost predicate NoAgreement(cs: seq<Claim>, allow: nat) {
    forall low, high :: !Agreement(cs, allow, low, high)
  }

  /** The answer for the least number of falsetickers that leaves a majority. */
  ghost predicate IsIntersection(cs: seq<Claim>, r: Option<Interval>) {
    match r
    case Some(i) =>
      exists allow: nat :: 2 * allow < |cs| && Agreement(cs, allow, i.low, i.high)
                           && forall a: nat :: a < allow ==> NoAgreement(cs, a)
    case None =>
      forall a: nat :: 2 * a < |cs| ==> NoAgreement(cs, a)
  }

  // ----- the sorted list of edges -----

  function EdgeOrder(a: Endpoint, b: Endpoint): bool {
    a.edge < b.edge || (a.edge == b.edge && a.kind.Sign() <= b.kind.Sign())
  }

  function Points(cs: seq<Claim>): seq<Endpoint> {
    if cs == [] then []
    else
      var c := cs[|cs| - 1];
      Points(cs[..|cs| - 1]) + [Endpoint(c.Lower(), Lower), Endpoint(c.mid, Mid), Endpoint(c.Upper(), Upper)]
  }

  function OfKind(kind: Kind): Endpoint -> bool {
    (p: Endpoint) => p.kind == kind
  }

  /** Edges of one kind at or before x (`strict`: before x). */
  function UpTo(kind: Kind, x: real, strict: bool): Endpoint -> bool {
    (p: Endpoint) => p.kind == kind && if strict then p.edge < x else p.edge <= x
  }

  /** How many intervals a sweep over `ps` has open at its end. */
  function Open(ps: seq<Endpoint>): int {
    CountIf(ps, OfKind(Lower)) - CountIf(ps, OfKind(Upper))
  }

  function Midpoints(ps: seq<Endpoint>): nat {
    CountIf(ps, OfKind(Mid))
  }

  /** What one sweep over `ps` reports when it looks for `need` open intervals. */
  ghost predicate SweepReport(ps: seq<Endpoint>, need: int, edge: Option<real>, found: nat) {
    match edge
    case None =>
      && (forall j :: 0 <= j <= |ps| ==> Open(ps[..j]) < need)
      && found == Midpoints(ps)
    case Some(e) =>
      exists k: nat :: StopsAt(ps, need, k) && ps[k].edge == e && found == Midpoints(ps[..k])
  }

  /** Taking in the k-th endpoint is what first reaches `need`. */
  ghost predicate StopsAt(ps: seq<Endpoint>, need: int, k: nat) {
    && k < |ps|
    && (forall j :: 0 <= j <= k ==> Open(ps[..j]) < need)
    && Open(ps[..k + 1]) >= need
  }

  /** `ps` holds the edges of `cs`, as far as counting below a point can tell. */
  ghost predicate Tallies(ps: seq<Endpoint>, cs: seq<Claim>) {
    && (forall x :: CountIf(ps, UpTo(Lower, x, false)) - CountIf(ps, UpTo(Upper, x, true)) == Coverage(cs, x))
    && (forall x :: CountIf(ps, UpTo(Mid, x, true)) == CountIf(cs, MidBelow(x)))
    && Midpoints(ps) == |cs|
  }

  lemma OpenStep(ps: seq<Endpoint>, k: nat)
    requires k < |ps|
    ensures Open(ps[..k + 1]) == Open(ps[..k]) - ps[k].kind.Sign()
    ensures Midpoints(ps[..k + 1]) == Midpoints(ps[..k]) + if ps[k].kind == Mid then 1 else 0
  {
    assert ps[..k + 1][..k] == ps[..k];
  }

  // ----- what a sweep's report means -----

  ghost predicate LeftEdge(cs: seq<Claim>, need: int, edge: Option<real>, found: nat) {
    match edge
    case None => (forall x :: Coverage(cs, x) < need) && found == |cs|
    case Some(e) => Leftmost(cs, need, e) && found == CountIf(cs, MidBelow(e))
  }

  ghost predicate RightEdge(cs: seq<Claim>, need: int, edge: Option<real>, found: nat) {
    match edge
    case None => (forall x :: Coverage(cs, x) < need) && found == |cs|
    case Some(e) => Rightmost(cs, need, e) && found == CountIf(cs, MidAbove(e))
  }

  /** The part of a sorted list a sweep has passed when it stands at x. */
  lemma {:induction false} Cut(ps: seq<Endpoint>, x: real) returns (j: nat)
    requires InOrder(ps, EdgeOrder)
    ensures j <= |ps|
    ensures forall i :: 0 <= i < j ==> EdgeOrder(ps[i], Endpoint(x, Lower))
    ensures forall i :: j <= i < |ps| ==> !EdgeOrder(ps[i], Endpoint(x, Lower))
  {
    if ps == [] || EdgeOrder(ps[|ps| - 1], Endpoint(x, Lower)) {
      j := |ps|;
    } else {
      j := Cut(ps[..|ps| - 1], x);
    }
  }

  lemma CoverageAtCut(ps: seq<Endpoint>, cs: seq<Claim>, x: real, j: nat)
    requires Tallies(ps, cs) && j <= |ps|
    requires forall i :: 0 <= i < j ==> EdgeOrder(ps[i], Endpoint(x, Lower))
    requires forall i :: j <= i < |ps| ==> !EdgeOrder(ps[i], Endpoint(x, Lower))
    ensures Coverage(cs, x) == Open(ps[..j])
  {
    CountPrefix(ps, j, UpTo(Lower, x, false), OfKind(Lower));
    CountPrefix(ps, j, UpTo(Upper, x, true), OfKind(Upper));
  }

  /** A sweep stops at the leftmost point with enough coverage, having passed
      exactly the midpoints below it; it fails to stop only when there is none. */
  lemma SweepMeaning(ps: seq<Endpoint>, cs: seq<Claim>, need: int, edge: Option<real>, found: nat)
    requires InOrder(ps, EdgeOrder) && Tallies(ps, cs)
    requires SweepReport(ps, need, edge, found)
    ensures LeftEdge(cs, need, edge, found)
  {
    match edge
    case None =>
      forall x
        ensures Coverage(cs, x) < need
      {
        var j := Cut(ps, x);
        CoverageAtCut(ps, cs, x, j);
      }
    case Some(e) =>
      var k: nat :| StopsAt(ps, need, k) && ps[k].edge == e && found == Midpoints(ps[..k]);
      StopMeaning(ps, cs, need, k);
  }

  lemma StopMeaning(ps: seq<Endpoint>, cs: seq<Claim>, need: int, k: nat)
    requires InOrder(ps, EdgeOrder) && Tallies(ps, cs) && StopsAt(ps, need, k)
    ensures Leftmost(cs, need, ps[k].edge)
    ensures Midpoints(ps[..k]) == CountIf(cs, MidBelow(ps[k].edge))
  {
    OpenStep(ps, k);
    assert Open(ps[..k]) < need;
    StopIsCovered(ps, cs, k);
    MidpointsPassed(ps, k);
    forall y | y < ps[k].edge
      ensures Coverage(cs, y) < need
    {
      var j := Cut(ps, y);
      assert j <= k;
      CoverageAtCut(ps, cs, y, j);
      assert Open(ps[..j]) < need;
    }
  }

  lemma MidpointsPassed(ps: seq<Endpoint>, k: nat)
    requires InOrder(ps, EdgeOrder)
    requires k < |ps| && ps[k].kind == Lower
    ensures CountIf(ps, UpTo(Mid, ps[k].edge, true)) == Midpoints(ps[..k])
  {
    hide InOrder, CountIf;
    AroundEdge(ps, k);
    CountPrefix(ps, k, UpTo(Mid, ps[k].edge, true), OfKind(Mid));
  }

  lemma StopIsCovered(ps: seq<Endpoint>, cs: seq<Claim>, k: nat)
    requires InOrder(ps, EdgeOrder) && Tallies(ps, cs)
    requires k < |ps| && ps[k].kind == Lower
    ensures Coverage(cs, ps[k].edge) >= Open(ps[..k + 1])
  {
    var e, n := ps[k].edge, k + 1;
    EdgesPassed(ps, k);
    assert ps == ps[..n] + ps[n..];
    CountAppend(ps[..n], ps[n..], UpTo(Lower, e, false));
  }

  lemma EdgesPassed(ps: seq<Endpoint>, k: nat)
    requires InOrder(ps, EdgeOrder)
    requires k < |ps| && ps[k].kind == Lower
    ensures CountIf(ps, UpTo(Upper, ps[k].edge, true)) == CountIf(ps[..k + 1], OfKind(Upper))
    ensures CountIf(ps[..k + 1], UpTo(Lower, ps[k].edge, false)) == CountIf(ps[..k + 1], OfKind(Lower))
  {
    hide InOrder, CountIf;
    AroundEdge(ps, k);
    CountPrefix(ps, k + 1, UpTo(Upper, ps[k].edge, true), OfKind(Upper));
    CountAgree(ps[..k + 1], UpTo(Lower, ps[k].edge, false), OfKind(Lower));
  }

  /** Where the edges before and after a lower edge lie. */
  lemma AroundEdge(ps: seq<Endpoint>, k: nat)
    requires InOrder(ps, EdgeOrder)
    requires k < |ps| && ps[k].kind == Lower
    ensures forall i :: 0 <= i < k ==> ps[i].edge <= ps[k].edge && (ps[i].kind != Lower ==> ps[i].edge < ps[k].edge)
    ensures forall i :: k <= i < |ps| ==> ps[k].edge <= ps[i].edge
  {
    assert forall i :: 0 <= i < k ==> EdgeOrder(ps[i], ps[k]);
    assert forall i :: k < i < |ps| ==> EdgeOrder(ps[k], ps[i]);
  }

  // ----- the edge list tallies the claims, from the left and from the right -----

  lemma {:induction false} PointsTally(cs: seq<Claim>, x: real)
    ensures CountIf(Points(cs), UpTo(Lower, x, false)) - CountIf(Points(cs), UpTo(Upper, x, true)) == Coverage(cs, x)
    ensures CountIf(Points(cs), UpTo(Mid, x, true)) == CountIf(cs, MidBelow(x))
    ensures Midpoints(Points(cs)) == |cs|
  {
    if cs != [] {
      var c, rest := cs[|cs| - 1], cs[..|cs| - 1];
      PointsTally(rest, x);
      var three := [Endpoint(c.Lower(), Lower), Endpoint(c.mid, Mid), Endpoint(c.Upper(), Upper)];
      AppendThree(Points(rest), three, UpTo(Lower, x, false));
      AppendThree(Points(rest), three, UpTo(Upper, x, true));
      AppendThree(Points(rest), three, UpTo(Mid, x, true));
      AppendThree(Points(rest), three, OfKind(Mid));
    }
  }

  lemma AppendThree(ps: seq<Endpoint>, three: seq<Endpoint>, p: Endpoint -> bool)
    requires |three| == 3
    ensures CountIf(ps + three, p) == CountIf(ps, p)
        + (if p(three[0]) then 1 else 0) + (if p(three[1]) then 1 else 0) + (if p(three[2]) then 1 else 0)
  {
    CountAppend(ps, three, p);
    assert three[..2][..1] == [three[0]];
    assert three[..2] == [three[0], three[1]];
    assert CountIf([three[0]], p) == if p(three[0]) then 1 else 0;
  }

  lemma SortedTallies(cs: seq<Claim>)
    ensures InOrder(Sort(Points(cs), EdgeOrder), EdgeOrder)
    ensures Tallies(Sort(Points(cs), EdgeOrder), cs)
  {
    hide Points, Sort, CountIf;
    var ps := Sort(Points(cs), EdgeOrder);
    SortInOrder(Points(cs), EdgeOrder);
    forall x
      ensures CountIf(ps, UpTo(Lower, x, false)) - CountIf(ps, UpTo(Upper, x, true)) == Coverage(cs, x)
      ensures CountIf(ps, UpTo(Mid, x, true)) == CountIf(cs, MidBelow(x))
    {
      PointsTally(cs, x);
      SortCount(Points(cs), EdgeOrder, UpTo(Lower, x, false));
      SortCount(Points(cs), EdgeOrder, UpTo(Upper, x, true));
      SortCount(Points(cs), EdgeOrder, UpTo(Mid, x, true));
    }
    PointsTally(cs, 0.0);
    SortCount(Points(cs), EdgeOrder, OfKind(Mid));
  }

  /** The list read from its other end, with the axis turned round. */
  function Mirror(ps: seq<Endpoint>): (r: seq<Endpoint>)
    ensures |r| == |ps|
    ensures forall i :: 0 <= i < |ps| ==> r[i] == ps[|ps| - 1 - i].Mirrored()
  {
    seq(|ps|, i requires 0 <= i < |ps| => ps[|ps| - 1 - i].Mirrored())
  }

  function MirrorClaims(cs: seq<Claim>): (r: seq<Claim>)
    ensures |r| == |cs|
    ensures forall i :: 0 <= i < |cs| ==> r[i] == cs[i].Mirrored()
  {
    seq(|cs|, i requires 0 <= i < |cs| => cs[i].Mirrored())
  }

  function Negated(edge: Option<real>): Option<real> {
    if edge.Some? then Some(-edge.value) else None
  }

  function Flipped(p: Endpoint -> bool): Endpoint -> bool {
    (e: Endpoint) => p(e.Mirrored())
  }

  lemma {:induction false} MirrorCount(ps: seq<Endpoint>, p: Endpoint -> bool)
    ensures CountIf(Mirror(ps), p) == CountIf(ps, Flipped(p))
  {
    if ps != [] {
      var n := |ps| - 1;
      MirrorCount(ps[..n], p);
      assert Mirror(ps) == [ps[n].Mirrored()] + Mirror(ps[..n]);
      CountAppend([ps[n].Mirrored()], Mirror(ps[..n]), p);
    }
  }

  lemma {:induction false} MirrorPoints(cs: seq<Claim>, p: Endpoint -> bool)
    ensures CountIf(Points(MirrorClaims(cs)), p) == CountIf(Points(cs), Flipped(p))
  {
    if cs != [] {
      var c, rest := cs[|cs| - 1], cs[..|cs| - 1];
      var d := c.Mirrored();
      MirrorPoints(rest, p);
      assert MirrorClaims(cs)[..|cs| - 1] == MirrorClaims(rest) && MirrorClaims(cs)[|cs| - 1] == d;
      var three := [Endpoint(c.Lower(), Lower), Endpoint(c.mid, Mid), Endpoint(c.Upper(), Upper)];
      var turned := [Endpoint(d.Lower(), Lower), Endpoint(d.mid, Mid), Endpoint(d.Upper(), Upper)];
      assert turned == [three[2].Mirrored(), three[1].Mirrored(), three[0].Mirrored()];
      assert forall i :: 0 <= i < 3 ==> (Flipped(p)(three[i]) <==> p(turned[2 - i]));
      AppendThree(Points(rest), three, Flipped(p));
      AppendThree(Points(MirrorClaims(rest)), turned, p);
    }
  }

  lemma MirroredCount(cs: seq<Claim>, p: Endpoint -> bool)
    ensures CountIf(Mirror(Sort(Points(cs), EdgeOrder)), p) == CountIf(Points(MirrorClaims(cs)), p)
  {
    MirrorCount(Sort(Points(cs), EdgeOrder), p);
    SortCount(Points(cs), EdgeOrder, Flipped(p));
    MirrorPoints(cs, p);
  }

  lemma MirrorTallies(cs: seq<Claim>)
    ensures InOrder(Mirror(Sort(Points(cs), EdgeOrder)), EdgeOrder)
    ensures Tallies(Mirror(Sort(Points(cs), EdgeOrder)), MirrorClaims(cs))
  {
    hide Points, Sort, CountIf;
    var ps, ms := Sort(Points(cs), EdgeOrder), MirrorClaims(cs);
    SortInOrder(Points(cs), EdgeOrder);
    forall i, j | 0 <= i < j < |ps|
      ensures EdgeOrder(Mirror(ps)[i], Mirror(ps)[j])
    {
      assert EdgeOrder(ps[|ps| - 1 - j], ps[|ps| - 1 - i]);
    }
    forall x
      ensures CountIf(Mirror(ps), UpTo(Lower, x, false)) - CountIf(Mirror(ps), UpTo(Upper, x, true)) == Coverage(ms, x)
      ensures CountIf(Mirror(ps), UpTo(Mid, x, true)) == CountIf(ms, MidBelow(x))
    {
      PointsTally(ms, x);
      MirroredCount(cs, UpTo(Lower, x, false));
      MirroredCount(cs, UpTo(Upper, x, true));
      MirroredCount(cs, UpTo(Mid, x, true));
    }
    PointsTally(ms, 0.0);
    MirroredCount(cs, OfKind(Mid));
  }

  lemma {:induction false} MirrorCoverage(cs: seq<Claim>, x: real)
    ensures Coverage(MirrorClaims(cs), x) == Coverage(cs, -x)
    ensures CountIf(MirrorClaims(cs), MidBelow(x)) == CountIf(cs, MidAbove(-x))
  {
    if cs != [] {
      MirrorCoverage(cs[..|cs| - 1], x);
      assert MirrorClaims(cs)[..|cs| - 1] == MirrorClaims(cs[..|cs| - 1]);
    }
  }

  lemma MirrorLeftmost(cs: seq<Claim>, need: int, x: real)
    requires Leftmost(MirrorClaims(cs), need, x)
    ensures Rightmost(cs, need, -x)
  {
    MirrorCoverage(cs, x);
    forall y | y > -x
      ensures Coverage(cs, y) < need
    {
      MirrorCoverage(cs, -y);
      assert Coverage(MirrorClaims(cs), -y) < need;
    }
  }

  // ----- the two sweeps and the loop over `allow` -----

  method SweepUp(points: seq<Endpoint>, need: int) returns (low: Option<real>, found: nat)
    requires need > 0
    ensures SweepReport(points, need, low, found)
  {
    var chime := 0;
    low, found := None, 0;
    for i := 0 to |points|
      invariant low.None?
      invariant chime == Open(points[..i]) && found == Midpoints(points[..i])
      invariant forall j :: 0 <= j <= i ==> Open(points[..j]) < need
    {
      OpenStep(points, i);
      chime := chime - points[i].kind.Sign();
      if chime >= need {
        assert StopsAt(points, need, i);
        return Some(points[i].edge), found;
      }
      if points[i].kind == Mid {
        found := found + 1;
      }
    }
    assert points[..|points|] == points;
  }

  /** The same sweep from the right; the report is about the mirrored list. */
  method SweepDown(points: seq<Endpoint>, need: int, before: nat) returns (high: Option<real>, found: nat)
    requires need > 0
    ensures found >= before
    ensures SweepReport(Mirror(points), need, Negated(high), found - before)
  {
    var chime := 0;
    high, found := None, before;
    ghost var mirror := Mirror(points);
    for i := |points| downto 0
      invariant high.None? && found >= before
      invariant chime == Open(mirror[..|points| - i]) && found - before == Midpoints(mirror[..|points| - i])
      invariant forall j :: 0 <= j <= |points| - i ==> Open(mirror[..j]) < need
    {
      var k := |points| - 1 - i;
      OpenStep(mirror, k);
      assert mirror[k] == points[i].Mirrored();
      chime := chime + points[i].kind.Sign();
      if chime >= need {
        assert StopsAt(mirror, need, k) && mirror[k].edge == -points[i].edge;
        return Some(points[i].edge), found;
      }
      if points[i].kind == Mid {
        found := found + 1;
      }
    }
    assert mirror[..|points|] == mirror;
  }

  method Edges(claims: seq<Claim>) returns (points: seq<Endpoint>)
    ensures points == Points(claims)
  {
    points := [];
    for i := 0 to |claims|
      invariant points == Points(claims[..i])
    {
      var c := claims[i];
      assert claims[..i + 1][..i] == claims[..i];
      points := points + [Endpoint(c.Lower(), Lower), Endpoint(c.mid, Mid), Endpoint(c.Upper(), Upper)];
    }
    assert claims[..|claims|] == claims;
  }

  /** Marzullo's algorithm as the daemon runs it meets the specification. */
  method Intersect(claims: seq<Claim>) returns (r: Option<Interval>)
    ensures IsIntersection(claims, r)
  {
    hide Agreement, SweepReport, Points, Sort, Mirror;
    var m := |claims|;
    var points := Edges(claims);
    points := Sort(points, EdgeOrder);
    var allow: nat := 0;
    while 2 * allow < m
      invariant forall a: nat :: a < allow ==> NoAgreement(claims, a)
    {
      var low, lowFound := SweepUp(points, m - allow);
      var high, found := SweepDown(points, m - allow, lowFound);
      RoundMeaning(claims, allow, low, lowFound, high, found);
      if found > allow {
      } else if low.Some? && high.Some? && high.value > low.value {
        return Some(Interval(low.value, high.value));
      }
      allow := allow + 1;
    }
    return None;
  }

  /** One round of the loop decides exactly whether this `allow` has an answer. */
  lemma RoundMeaning(cs: seq<Claim>, allow: nat, low: Option<real>, lowFound: nat, high: Option<real>, found: nat)
    requires 2 * allow < |cs| && found >= lowFound
    requires SweepReport(Sort(Points(cs), EdgeOrder), |cs| - allow, low, lowFound)
    requires SweepReport(Mirror(Sort(Points(cs), EdgeOrder)), |cs| - allow, Negated(high), found - lowFound)
    ensures found <= allow && low.Some? && high.Some? && high.value > low.value
            ==> Agreement(cs, allow, low.value, high.value)
    ensures !(found <= allow && low.Some? && high.Some? && high.value > low.value) ==> NoAgreement(cs, allow)
  {
    hide Agreement, NoAgreement, SweepReport, Points, Sort, Mirror, Tallies, InOrder, LeftEdge, RightEdge;
    SortedTallies(cs);
    SweepMeaning(Sort(Points(cs), EdgeOrder), cs, |cs| - allow, low, lowFound);
    MirrorTallies(cs);
    SweepMeaning(Mirror(Sort(Points(cs), EdgeOrder)), MirrorClaims(cs), |cs| - allow, Negated(high), found - lowFound);
    MirrorEdge(cs, |cs| - allow, high, found - lowFound);
    EdgesDecide(cs, allow, low, lowFound, high, found);
  }

  lemma MirrorEdge(cs: seq<Claim>, need: int, high: Option<real>, found: nat)
    requires LeftEdge(MirrorClaims(cs), need, Negated(high), found)
    ensures RightEdge(cs, need, high, found)
  {
    if high.Some? {
      MirrorLeftmost(cs, need, -high.value);
      MirrorCoverage(cs, -high.value);
    } else {
      forall x
        ensures Coverage(cs, x) < need
      {
        MirrorCoverage(cs, -x);
        assert Coverage(MirrorClaims(cs), -x) < need;
      }
    }
  }

  lemma EdgesDecide(cs: seq<Claim>, allow: nat, low: Option<real>, lowFound: nat, high: Option<real>, found: nat)
    requires 2 * allow < |cs| && found >= lowFound
    requires LeftEdge(cs, |cs| - allow, low, lowFound) && RightEdge(cs, |cs| - allow, high, found - lowFound)
    ensures found <= allow && low.Some? && high.Some? && high.value > low.value
            ==> Agreement(cs, allow, low.value, high.value)
    ensures !(found <= allow && low.Some? && high.Some? && high.value > low.value) ==> NoAgreement(cs, allow)
  {
    forall l, h | Agreement(cs, allow, l, h)
      ensures low == Some(l) && high == Some(h)
    {
    }
  }

  // ----- what the answer is worth -----

  /** The specification determines the answer. */
  lemma IntersectionIsUnique(cs: seq<Claim>, r: Option<Interval>, r': Option<Interval>)
    requires IsIntersection(cs, r) && IsIntersection(cs, r')
    ensures r == r'
  {
    if r.Some? {
      var a := LeastAllow(cs, r.value);
      if r'.Some? {
        var a' := LeastAllow(cs, r'.value);
        assert a == a';
        assert r.value.low == r'.value.low && r.value.high == r'.value.high;
      }
    } else if r'.Some? {
      var a' := LeastAllow(cs, r'.value);
    }
  }

  lemma LeastAllow(cs: seq<Claim>, i: Interval) returns (a: nat)
    requires IsIntersection(cs, Some(i))
    ensures 2 * a < |cs| && Agreement(cs, a, i.low, i.high) && !NoAgreement(cs, a)
    ensures forall b: nat :: b < a ==> NoAgreement(cs, b)
  {
    a :| 2 * a < |cs| && Agreement(cs, a, i.low, i.high) && forall b: nat :: b < a ==> NoAgreement(cs, b);
  }

  lemma {:induction false} MidpointsSplit(cs: seq<Claim>, low: real, high: real)
    requires low <= high
    ensures CountIf(cs, MidBelow(low)) + CountIf(cs, MidWithin(low, high)) + CountIf(cs, MidAbove(high)) == |cs|
  {
    if cs != [] {
      MidpointsSplit(cs[..|cs| - 1], low, high);
    }
  }

  /** More than half of all midpoints lie inside the agreed interval. */
  lemma MajorityInside(cs: seq<Claim>, i: Interval)
    requires IsIntersection(cs, Some(i))
    ensures i.low < i.high
    ensures 2 * CountIf(cs, MidWithin(i.low, i.high)) > |cs|
  {
    MidpointsSplit(cs, i.low, i.high);
  }

  /** Claims that are right about t and no vaguer than `bound`. */
  function Truthful(t: real, bound: real): Claim -> bool {
    (c: Claim) => c.Holds(t) && c.radius <= bound
  }

  /** Byzantine bound on the interval: when a strict majority is right about t to
      within `bound`, however the others lie, both agreed edges are within twice that. */
  lemma EdgesNearTruth(cs: seq<Claim>, i: Interval, t: real, bound: real)
    requires IsIntersection(cs, Some(i))
    requires 2 * CountIf(cs, Truthful(t, bound)) > |cs|
    ensures t - 2.0 * bound <= i.low < i.high <= t + 2.0 * bound
  {
    var atLow := Pigeonhole(cs, CoversAt(i.low), Truthful(t, bound));
    var atHigh := Pigeonhole(cs, CoversAt(i.high), Truthful(t, bound));
  }

  /** Twice the bound cannot be improved: two sources right about 0 to within 1 and one liar
      between them carry the agreed interval all the way to 2. */
  lemma EdgesReachTwiceBound()
    ensures var cs := [Claim(1.0, 1.0), Claim(-1.0, 1.0), Claim(1.75, 0.25)];
            2 * CountIf(cs, Truthful(0.0, 1.0)) > |cs| && IsIntersection(cs, Some(Interval(0.0, 2.0)))
  {
    var cs := [Claim(1.0, 1.0), Claim(-1.0, 1.0), Claim(1.75, 0.25)];
    CountTriple(cs, Truthful(0.0, 1.0));
    forall x
      ensures Coverage(cs, x) == (if 0.0 <= x <= 2.0 then 1 else 0) + (if -2.0 <= x <= 0.0 then 1 else 0)
                                 + (if 1.5 <= x <= 2.0 then 1 else 0)
    {
      CountTriple(cs, CoversAt(x));
    }
    CountTriple(cs, MidBelow(0.0));
    CountTriple(cs, MidAbove(2.0));
    assert Agreement(cs, 1, 0.0, 2.0);
    assert NoAgreement(cs, 0);
  }

  lemma CountTriple(cs: seq<Claim>, p: Claim -> bool)
    requires |cs| == 3
    ensures CountIf(cs, p) == (if p(cs[0]) then 1 else 0) + (if p(cs[1]) then 1 else 0) + (if p(cs[2]) then 1 else 0)
  {
    CountPair(cs[..2], p);
  }

  lemma FirstReach(ps: seq<Endpoint>, need: int, n: nat) returns (k: nat)
    requires n <= |ps| && 0 < need <= Open(ps[..n])
    ensures StopsAt(ps, need, k)
  {
    if j: nat :| j < n && Open(ps[..j]) >= need {
      k := FirstReach(ps, need, j);
    } else {
      assert n > 0;
      k := n - 1;
    }
  }

  lemma LeftmostExists(cs: seq<Claim>, need: int, x: real) returns (low: real)
    requires 0 < need <= Coverage(cs, x)
    ensures low <= x && Leftmost(cs, need, low)
  {
    var ps := Sort(Points(cs), EdgeOrder);
    SortedTallies(cs);
    var j := Cut(ps, x);
    CoverageAtCut(ps, cs, x, j);
    var k := FirstReach(ps, need, j);
    StopMeaning(ps, cs, need, k);
    low := ps[k].edge;
  }

  lemma RightmostExists(cs: seq<Claim>, need: int, x: real) returns (high: real)
    requires 0 < need <= Coverage(cs, x)
    ensures high >= x && Rightmost(cs, need, high)
  {
    MirrorCoverage(cs, -x);
    var low := LeftmostExists(MirrorClaims(cs), need, -x);
    MirrorLeftmost(cs, need, low);
    high := -low;
  }

  /** All but `allow` claims cover a, as many cover b, and at most `allow` offsets lie outside [a, b]. */
  ghost predicate Outvotes(cs: seq<Claim>, allow: nat, a: real, b: real) {
    && a < b
    && Coverage(cs, a) >= |cs| - allow
    && Coverage(cs, b) >= |cs| - allow
    && CountIf(cs, MidBelow(a)) + CountIf(cs, MidAbove(b)) <= allow
  }

  /** Exactly when a majority is heard: for any number of sources there is an answer if and only if some two points
      are each held by all but a minority, no bigger than which is the number of offsets outside them. The points
      need not be outermost, nor the minority least, nor the two held by the same sources. */
  lemma AnswersExactly(cs: seq<Claim>)
    ensures !IsIntersection(cs, None) <==> exists allow: nat, a, b :: 2 * allow < |cs| && Outvotes(cs, allow, a, b)
  {
    if !IsIntersection(cs, None) {
      var allow: nat :| 2 * allow < |cs| && !NoAgreement(cs, allow);
      var low, high :| Agreement(cs, allow, low, high);
      assert Outvotes(cs, allow, low, high);
    }
    if allow: nat, a, b :| 2 * allow < |cs| && Outvotes(cs, allow, a, b) {
      var low := LeftmostExists(cs, |cs| - allow, a);
      var high := RightmostExists(cs, |cs| - allow, b);
      CountImplies(cs, MidBelow(low), MidBelow(a));
      CountImplies(cs, MidAbove(high), MidAbove(b));
      assert Agreement(cs, allow, low, high);
      assert !NoAgreement(cs, allow);
    }
  }

  /** So the honest are heard when a strict majority's intervals share a stretch
      [a, b] that also holds their midpoints. */
  lemma AgreeingMajorityAnswers(cs: seq<Claim>, group: Claim -> bool, a: real, b: real)
    requires 2 * CountIf(cs, group) > |cs| && a < b
    requires forall i :: 0 <= i < |cs| && group(cs[i]) ==> cs[i].Holds(a) && cs[i].Holds(b) && a <= cs[i].mid <= b
    ensures !IsIntersection(cs, None)
  {
    CountImplies(cs, group, group);
    CountImplies(cs, group, CoversAt(a));
    CountImplies(cs, group, CoversAt(b));
    CountImplies(cs, group, MidWithin(a, b));
    MidpointsSplit(cs, a, b);
    assert Outvotes(cs, |cs| - CountIf(cs, group), a, b);
    AnswersExactly(cs);
  }

  /** Exactly when two sources yield an answer: each offset inside the other's
      interval, and more than a single point in common. */
  lemma PairAnswers(c: Claim, d: Claim)
    ensures IsIntersection([c, d], None)
            <==> !(c.Holds(d.mid) && d.Holds(c.mid) && Max(c.Lower(), d.Lower()) < Min(c.Upper(), d.Upper()))
  {
    var cs := [c, d];
    var low, high := Max(c.Lower(), d.Lower()), Min(c.Upper(), d.Upper());
    forall x
      ensures Coverage(cs, x) >= 2 <==> low <= x <= high
      ensures CountIf(cs, MidBelow(x)) == (if c.mid < x then 1 else 0) + (if d.mid < x then 1 else 0)
      ensures CountIf(cs, MidAbove(x)) == (if c.mid > x then 1 else 0) + (if d.mid > x then 1 else 0)
    {
      CountPair(cs, CoversAt(x));
      CountPair(cs, MidBelow(x));
      CountPair(cs, MidAbove(x));
    }
    forall l, h | Agreement(cs, 0, l, h)
      ensures l == low && h == high
    {
      assert Coverage(cs, low) >= 2 && Coverage(cs, high) >= 2;
    }
    if c.Holds(d.mid) && d.Holds(c.mid) && low < high {
      assert Agreement(cs, 0, low, high);
      assert !NoAgreement(cs, 0);
    }
  }

  // ----- whatever the rest claim -----

  lemma {:induction false} PastAll(cs: seq<Claim>) returns (x: real)
    ensures forall i :: 0 <= i < |cs| ==> cs[i].Upper() < x && cs[i].mid < x
  {
    if cs == [] {
      x := 0.0;
    } else {
      var y := PastAll(cs[..|cs| - 1]);
      x := Max(y, Max(cs[|cs| - 1].Upper(), cs[|cs| - 1].mid) + 1.0);
    }
  }

  /** The worst that k others can do is to agree on a point far from anything the honest claim. */
  function FarAway(k: nat, x: real): (liars: seq<Claim>)
    ensures |liars| == k && forall i :: 0 <= i < k ==> liars[i] == Claim(x, 0.0)
  {
    seq(k, _ => Claim(x, 0.0))
  }

  lemma {:induction false} CountAll<T>(s: seq<T>, p: T -> bool)
    requires forall i :: 0 <= i < |s| ==> p(s[i])
    ensures CountIf(s, p) == |s|
  {
    if s != [] {
      CountAll(s[..|s| - 1], p);
    }
  }

  /** Before the far point the others cover nothing, and their offsets all lie above. */
  lemma FarAwayCounts(honest: seq<Claim>, k: nat, far: real, x: real)
    requires x < far
    ensures var cs := honest + FarAway(k, far);
            && Coverage(cs, x) == Coverage(honest, x)
            && CountIf(cs, MidBelow(x)) == CountIf(honest, MidBelow(x))
            && CountIf(cs, MidAbove(x)) == CountIf(honest, MidAbove(x)) + k
  {
    var liars := FarAway(k, far);
    CountAppend(honest, liars, CoversAt(x));
    CountAppend(honest, liars, MidBelow(x));
    CountAppend(honest, liars, MidAbove(x));
    CountNone(liars, CoversAt(x));
    CountNone(liars, MidBelow(x));
    CountAll(liars, MidAbove(x));
  }

  lemma CoveredIsNear(honest: seq<Claim>, k: nat, far: real, x: real)
    requires forall i :: 0 <= i < |honest| ==> honest[i].Upper() < far
    requires Coverage(honest + FarAway(k, far), x) > k
    ensures x < far
  {
    if x >= far {
      CountAppend(honest, FarAway(k, far), CoversAt(x));
      CountNone(honest, CoversAt(x));
      CountImplies(FarAway(k, far), CoversAt(x), CoversAt(x));
    }
  }

  lemma OutvotesAnyRest(honest: seq<Claim>, liars: seq<Claim>, out: nat, a: real, b: real)
    requires Outvotes(honest, out, a, b)
    ensures Outvotes(honest + liars, out + |liars|, a, b)
  {
    CountAppend(honest, liars, CoversAt(a));
    CountAppend(honest, liars, CoversAt(b));
    CountAppend(honest, liars, MidBelow(a));
    CountAppend(honest, liars, MidAbove(b));
    MidpointsSplit(liars, a, b);
  }

  /** Exactly what the honest can count on: they are heard whatever k others claim, if and only if some two of their own
      points are each held by all but `out` of them, with no more than `out` of their own offsets outside, and
      `out` and k together are a minority of all. */
  lemma HeardWhateverTheRest(honest: seq<Claim>, k: nat)
    requires k < |honest|
    ensures (forall liars: seq<Claim> :: |liars| == k ==> !IsIntersection(honest + liars, None))
            <==> exists out: nat, a, b :: 2 * (out + k) < |honest| + k && Outvotes(honest, out, a, b)
  {
    hide IsIntersection;
    if out: nat, a, b :| 2 * (out + k) < |honest| + k && Outvotes(honest, out, a, b) {
      forall liars: seq<Claim> | |liars| == k
        ensures !IsIntersection(honest + liars, None)
      {
        OutvotesAnyRest(honest, liars, out, a, b);
        AnswersExactly(honest + liars);
      }
    }
    if forall liars: seq<Claim> :: |liars| == k ==> !IsIntersection(honest + liars, None) {
      var far := PastAll(honest);
      var cs := honest + FarAway(k, far);
      AnswersExactly(cs);
      var allow: nat, a, b :| 2 * allow < |cs| && Outvotes(cs, allow, a, b);
      CoveredIsNear(honest, k, far, a);
      CoveredIsNear(honest, k, far, b);
      FarAwayCounts(honest, k, far, a);
      FarAwayCounts(honest, k, far, b);
      assert Outvotes(honest, allow - k, a, b);
    }
  }

  /** Three sources, one of which may say anything: the other two are heard exactly when they would be by themselves. */
  lemma PairSurvivesOneLiar(c: Claim, d: Claim)
    ensures (forall liar: Claim :: !IsIntersection([c, d] + [liar], None))
            <==> c.Holds(d.mid) && d.Holds(c.mid) && Max(c.Lower(), d.Lower()) < Min(c.Upper(), d.Upper())
  {
    hide IsIntersection;
    HeardWhateverTheRest([c, d], 1);
    AnswersExactly([c, d]);
    PairAnswers(c, d);
    if forall liar: Claim :: !IsIntersection([c, d] + [liar], None) {
      forall liars: seq<Claim> | |liars| == 1
        ensures !IsIntersection([c, d] + liars, None)
      {
        assert liars == [liars[0]];
      }
    }
    if forall liars: seq<Claim> :: |liars| == 1 ==> !IsIntersection([c, d] + liars, None) {
      forall liar: Claim
        ensures !IsIntersection([c, d] + [liar], None)
      {
        assert |[liar]| == 1;
      }
    }
  }

  /** So being right is not enough: two sources that are both right about t, but lie
      further from each other than either admits, are refused. */
  lemma HonestPairRefused()
    ensures var cs := [Claim(0.0, 1.0), Claim(1.5, 1.0)];
            CountIf(cs, Truthful(0.75, 1.0)) == |cs| && IsIntersection(cs, None)
  {
    CountPair([Claim(0.0, 1.0), Claim(1.5, 1.0)], Truthful(0.75, 1.0));
    PairAnswers(Claim(0.0, 1.0), Claim(1.5, 1.0));
  }

  lemma CountPair(cs: seq<Claim>, p: Claim -> bool)
    requires |cs| == 2
    ensures CountIf(cs, p) == (if p(cs[0]) then 1 else 0) + (if p(cs[1]) then 1 else 0)
  {
    assert cs[..1][..0] == [];
    assert CountIf(cs[..1], p) == if p(cs[0]) then 1 else 0;
  }
}
