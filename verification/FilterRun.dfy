/** What the clock filter keeps and reports over whole runs of inserts and resets. */
module FilterRun {
  import opened Numbers
  import opened Sorting
  import opened Sample
  import opened Filter

  datatype Op = Insert(sample: Sample, now: real) | Reset

  function After(ops: seq<Op>, root: real -> real): Register {
    if ops == [] then EMPTY
    else
      match ops[|ops| - 1]
      case Reset => EMPTY
      case Insert(sample, now) => Inserted(After(ops[..|ops| - 1], root), sample, now, root).0
  }

  /** What the k-th operation returned. */
  function OutcomeAt(ops: seq<Op>, k: nat, root: real -> real): FilterOutcome
    requires k < |ops| && ops[k].Insert?
  {
    Inserted(After(ops[..k], root), ops[k].sample, ops[k].now, root).1
  }

  /** Every sample inserted since the last reset, newest first. */
  function SinceReset(ops: seq<Op>): seq<Sample> {
    if ops == [] then []
    else
      match ops[|ops| - 1]
      case Reset => []
      case Insert(sample, _) => [sample] + SinceReset(ops[..|ops| - 1])
  }

  /** The register is the newest eight samples since the last reset, in time order. */
  lemma {:induction false} RegisterIsHistory(ops: seq<Op>, root: real -> real)
    ensures After(ops, root).samples == Newest(SinceReset(ops))
  {
    if ops != [] && ops[|ops| - 1].Insert? {
      RegisterIsHistory(ops[..|ops| - 1], root);
      var s, h := ops[|ops| - 1].sample, SinceReset(ops[..|ops| - 1]);
      assert Newest([s] + Newest(h)) == Newest([s] + h);
    }
  }

  predicate NoReset(ops: seq<Op>, from: nat, to: nat) {
    to <= |ops| && forall i :: from <= i < to ==> ops[i].Insert?
  }

  lemma ReportStep(r: Register, sample: Sample, now: real, root: real -> real)
    ensures var (r', outcome) := Inserted(r, sample, now, root);
            && (r.lastReported.Some? ==> r'.lastReported.Some? && r.lastReported.value <= r'.lastReported.value)
            && (outcome.Stale? ==> r'.lastReported == r.lastReported && r.lastReported.Some?)
  {
  }

  lemma AfterStep(ops: seq<Op>, j: nat, root: real -> real)
    requires 0 < j <= |ops| && ops[j - 1].Insert?
    ensures After(ops[..j], root) == Inserted(After(ops[..j - 1], root), ops[j - 1].sample, ops[j - 1].now, root).0
  {
    assert ops[..j][..j - 1] == ops[..j - 1];
  }

  lemma {:induction false} LastReportedGrows(ops: seq<Op>, i: nat, j: nat, root: real -> real)
    requires i <= j && NoReset(ops, i, j)
    requires After(ops[..i], root).lastReported.Some?
    ensures After(ops[..j], root).lastReported.Some?
    ensures After(ops[..i], root).lastReported.value <= After(ops[..j], root).lastReported.value
    decreases j - i
  {
    if i < j {
      LastReportedGrows(ops, i, j - 1, root);
      AfterStep(ops, j, root);
      ReportStep(After(ops[..j - 1], root), ops[j - 1].sample, ops[j - 1].now, root);
    }
  }

  lemma UpdateIsRecorded(ops: seq<Op>, k: nat, root: real -> real)
    requires k < |ops| && ops[k].Insert?
    ensures OutcomeAt(ops, k, root).Update?
            ==> After(ops[..k + 1], root).lastReported == Some(OutcomeAt(ops, k, root).filtered.at)
    ensures After(ops[..k + 1], root).samples != []
    ensures OutcomeAt(ops, k, root).Update?
            ==> OutcomeAt(ops, k, root).filtered == Estimate(After(ops[..k + 1], root).samples, ops[k].now, root)
  {
    assert ops[..k + 1][..k] == ops[..k];
  }

  /** No measurement reaches the discipline twice: between resets the reported times strictly increase. */
  lemma UpdatesAdvance(ops: seq<Op>, i: nat, j: nat, root: real -> real)
    requires i < j < |ops| && NoReset(ops, i, j + 1)
    requires OutcomeAt(ops, i, root).Update? && OutcomeAt(ops, j, root).Update?
    ensures OutcomeAt(ops, i, root).filtered.at < OutcomeAt(ops, j, root).filtered.at
  {
    UpdateIsRecorded(ops, i, root);
    LastReportedGrows(ops, i + 1, j, root);
  }

  /** A report is the newest of the least-delayed among the newest eight samples since the
      last reset, and is what asking again at once would give. */
  lemma UpdateIsBestOfHistory(ops: seq<Op>, j: nat, root: real -> real) returns (k: nat)
    requires j < |ops| && ops[j].Insert? && OutcomeAt(ops, j, root).Update?
    ensures var history := Newest(SinceReset(ops[..j + 1]));
            && FirstLeast(history, ByDelay, k)
            && OutcomeAt(ops, j, root).filtered == Estimate(history, ops[j].now, root)
            && OutcomeAt(ops, j, root).filtered.at == history[k].at
            && OutcomeAt(ops, j, root).filtered.offset == history[k].offset
  {
    RegisterIsHistory(ops[..j + 1], root);
    UpdateIsRecorded(ops, j, root);
    k := EstimateIsNewestLeastDelayed(Newest(SinceReset(ops[..j + 1])), ops[j].now, root);
  }

  /** Silence has exactly one cause: the best sample held is no newer than one already reported. */
  lemma StaleMeansAlreadyReported(ops: seq<Op>, j: nat, root: real -> real) returns (i: nat)
    requires j < |ops| && ops[j].Insert? && OutcomeAt(ops, j, root).Stale?
    ensures i < j && NoReset(ops, i, j) && OutcomeAt(ops, i, root).Update?
    ensures After(ops[..j + 1], root).samples != []
    ensures Estimate(After(ops[..j + 1], root).samples, ops[j].now, root).at <= OutcomeAt(ops, i, root).filtered.at
  {
    UpdateIsRecorded(ops, j, root);
    assert ops[..j + 1][..j] == ops[..j];
    i := ReportBehind(ops, j, root);
  }

  lemma {:induction false} ReportBehind(ops: seq<Op>, j: nat, root: real -> real) returns (i: nat)
    requires j <= |ops| && After(ops[..j], root).lastReported.Some?
    ensures i < j && NoReset(ops, i, j) && OutcomeAt(ops, i, root).Update?
    ensures OutcomeAt(ops, i, root).filtered.at == After(ops[..j], root).lastReported.value
  {
    hide Inserted;
    assert j > 0 && ops[..j] != [];
    if ops[j - 1].Insert? {
      AfterStep(ops, j, root);
      ReportStep(After(ops[..j - 1], root), ops[j - 1].sample, ops[j - 1].now, root);
      UpdateIsRecorded(ops, j - 1, root);
    }
    if OutcomeAt(ops, j - 1, root).Update? {
      i := j - 1;
    } else {
      i := ReportBehind(ops, j - 1, root);
    }
  }
}
