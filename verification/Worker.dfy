/**
 The loop and its network worker: two queues, one thread on each side, and the promise that a
 source never has two jobs out. Every interleaving is a run of the small steps below.
 */
module Worker {
  import opened Numbers

  const RETRY_INTERVAL: real := 15.0
  const REKEY_INTERVAL: real := 86400.0

  datatype Job = Resolve(index: nat) | Handshake(index: nat) | Roots {
    predicate IsFor(i: nat) { !Roots? && index == i }
  }

  /** `ok`: the job succeeded; `usable`: with an address this machine can reach. */
  datatype Done = Done(job: Job, ok: bool, usable: bool)

  datatype Entry = Entry(
    inFlight: bool, hasAddresses: bool, nts: bool, keyed: bool, retryAfter: real, rekeyAfter: real)
  {
    predicate NeedsKeys(now: real) {
      nts && (!keyed || now > rekeyAfter)
    }
  }

  /** `batch` is what one collection has taken out and the loop has yet to act on. */
  datatype World = World(
    entries: seq<Entry>, tls: bool, rootsAfter: real, outstanding: nat, alive: bool,
    jobs: seq<Job>, running: Option<Job>, done: seq<Done>, batch: seq<Done>)

  // ----- the loop's steps -----

  /** A send fails once the worker has gone, and then counts for nothing. */
  function Submit(w: World, job: Job): World {
    if w.alive then w.(jobs := w.jobs + [job], outstanding := w.outstanding + 1) else w
  }

  function EnsureRoots(w: World, now: real): World {
    if w.tls || now < w.rootsAfter || (forall i :: 0 <= i < |w.entries| ==> !w.entries[i].nts) then w
    else Submit(w.(rootsAfter := now + RETRY_INTERVAL), Roots)
  }

  /** One turn of the loop over the sources. */
  function Maintain(w: World, i: nat, now: real): World
    requires i < |w.entries|
  {
    var e := w.entries[i];
    if e.inFlight || now < e.retryAfter then w
    else if !e.hasAddresses then
      Submit(w.(entries := w.entries[i := e.(inFlight := true)]), Resolve(i))
    else if !e.NeedsKeys(now) then w
    else if !w.tls then
      w.(entries := w.entries[i := e.(retryAfter := now + RETRY_INTERVAL)])
    else
      Submit(w.(entries := w.entries[i := e.(inFlight := true)]), Handshake(i))
  }

  /** One successful receive of a collection, or its end when the channel is empty. */
  function Receive(w: World): World {
    if w.done != [] then
      w.(done := w.done[1..], batch := w.batch + [w.done[0]],
         outstanding := if w.outstanding > 0 then w.outstanding - 1 else 0)
    else if !w.alive then w.(outstanding := 0)
    else w
  }

  function Finished(e: Entry, d: Done, now: real): Entry {
    var e := e.(inFlight := false);
    match d.job
    case Roots => e
    case Resolve(_) =>
      if d.ok && d.usable then e.(hasAddresses := true, retryAfter := 0.0)
      else e.(retryAfter := now + RETRY_INTERVAL)
    case Handshake(_) =>
      if !d.ok then e.(retryAfter := now + RETRY_INTERVAL, rekeyAfter := now + RETRY_INTERVAL)
      else if !d.usable then e.(retryAfter := now + RETRY_INTERVAL)
      else e.(keyed := true, nts := true, hasAddresses := true, rekeyAfter := now + REKEY_INTERVAL, retryAfter := 0.0)
  }

  /** Act on one collected result. */
  function Process(w: World, now: real): World {
    if w.batch == [] then w
    else
      var d, w := w.batch[0], w.(batch := w.batch[1..]);
      if d.job.Roots? then (if d.ok then w.(tls := true) else w)
      else if d.job.index >= |w.entries| then w
      else w.(entries := w.entries[d.job.index := Finished(w.entries[d.job.index], d, now)])
  }

  /** Anything else that happens to an entry: addresses dropped, keys refused, deadlines moved. */
  function Disturbed(w: World, i: nat, e: Entry): World
    requires i < |w.entries|
  {
    w.(entries := w.entries[i := e.(inFlight := w.entries[i].inFlight)])
  }

  // ----- the worker's steps -----

  function Take(w: World): World {
    if w.alive && w.running.None? && w.jobs != [] then w.(running := Some(w.jobs[0]), jobs := w.jobs[1..]) else w
  }

  function Finish(w: World, ok: bool, usable: bool): World {
    if w.alive && w.running.Some? then w.(running := None, done := w.done + [Done(w.running.value, ok, usable)]) else w
  }

  /** The worker thread stops: whatever it held or had not started is gone. */
  function Die(w: World): World {
    w.(alive := false, jobs := [], running := None)
  }

  datatype Step =
    | RootsStep(now: real)
    | MaintainStep(index: nat, now: real)
    | ReceiveStep
    | ProcessStep(now: real)
    | DisturbStep(index: nat, entry: Entry)
    | TakeStep
    | FinishStep(ok: bool, usable: bool)
    | DieStep

  function Next(w: World, s: Step): World {
    match s
    case RootsStep(now) => EnsureRoots(w, now)
    case MaintainStep(i, now) => if i < |w.entries| then Maintain(w, i, now) else w
    case ReceiveStep => Receive(w)
    case ProcessStep(now) => Process(w, now)
    case DisturbStep(i, e) => if i < |w.entries| then Disturbed(w, i, e) else w
    case TakeStep => Take(w)
    case FinishStep(ok, usable) => Finish(w, ok, usable)
    case DieStep => Die(w)
  }

  function Run(w: World, steps: seq<Step>): World {
    if steps == [] then w else Next(Run(w, steps[..|steps| - 1]), steps[|steps| - 1])
  }

  // ----- conservation -----

  function JobFor(i: nat): Job -> bool {
    (j: Job) => j.IsFor(i)
  }

  function DoneFor(i: nat): Done -> bool {
    (d: Done) => d.job.IsFor(i)
  }

  /** Jobs of source i anywhere: queued, running, finished, or collected and not yet acted on. */
  function JobsOut(w: World, i: nat): nat {
    CountIf(w.jobs, JobFor(i)) + (if w.running.Some? && w.running.value.IsFor(i) then 1 else 0)
    + CountIf(w.done, DoneFor(i)) + CountIf(w.batch, DoneFor(i))
  }

  /** The count is right, and a source is marked exactly when exactly one job of its own is out. */
  ghost predicate Conserved(w: World) {
    && w.alive
    && w.outstanding == |w.jobs| + (if w.running.Some? then 1 else 0) + |w.done|
    && forall i :: 0 <= i < |w.entries| ==> JobsOut(w, i) == if w.entries[i].inFlight then 1 else 0
  }

  predicate AtRest(w: World) {
    && w.alive && w.outstanding == 0 && w.jobs == [] && w.running.None? && w.done == [] && w.batch == []
    && forall i :: 0 <= i < |w.entries| ==> !w.entries[i].inFlight
  }

  lemma CountAdd<T>(s: seq<T>, x: T, p: T -> bool)
    ensures CountIf(s + [x], p) == CountIf(s, p) + if p(x) then 1 else 0
  {
    assert (s + [x])[..|s|] == s;
  }

  lemma CountDrop<T>(s: seq<T>, p: T -> bool)
    requires s != []
    ensures CountIf(s[1..], p) == CountIf(s, p) - if p(s[0]) then 1 else 0
  {
    assert s == [s[0]] + s[1..];
    CountAppend([s[0]], s[1..], p);
    assert CountIf([s[0]], p) == if p(s[0]) then 1 else 0;
  }

  /** Submitting marks one source and adds one job of its own, and touches no other. */
  lemma MaintainConserves(w: World, i: nat, now: real)
    requires Conserved(w) && i < |w.entries|
    ensures Conserved(Maintain(w, i, now))
  {
    hide CountIf;
    forall k | 0 <= k < |w.entries|
      ensures CountIf(w.jobs + [Resolve(i)], JobFor(k)) == CountIf(w.jobs, JobFor(k)) + if k == i then 1 else 0
      ensures CountIf(w.jobs + [Handshake(i)], JobFor(k)) == CountIf(w.jobs, JobFor(k)) + if k == i then 1 else 0
    {
      CountAdd(w.jobs, Resolve(i), JobFor(k));
      CountAdd(w.jobs, Handshake(i), JobFor(k));
    }
    assert forall k :: 0 <= k < |w.entries| ==> JobsOut(w, k) == if w.entries[k].inFlight then 1 else 0;
  }

  lemma RootsConserve(w: World, now: real)
    requires Conserved(w)
    ensures Conserved(EnsureRoots(w, now))
  {
    hide CountIf;
    forall k | 0 <= k < |w.entries|
      ensures JobsOut(EnsureRoots(w, now), k) == JobsOut(w, k)
    {
      CountAdd(w.jobs, Roots, JobFor(k));
    }
  }

  lemma ReceiveConserves(w: World)
    requires Conserved(w)
    ensures Conserved(Receive(w))
  {
    hide CountIf;
    if w.done != [] {
      forall k | 0 <= k < |w.entries|
        ensures JobsOut(Receive(w), k) == JobsOut(w, k)
      {
        CountDrop(w.done, DoneFor(k));
        CountAdd(w.batch, w.done[0], DoneFor(k));
      }
    }
  }

  lemma ProcessConserves(w: World, now: real)
    requires Conserved(w)
    ensures Conserved(Process(w, now))
  {
    hide CountIf;
    if w.batch != [] {
      var d := w.batch[0];
      forall k | 0 <= k < |w.entries|
        ensures JobsOut(Process(w, now), k) == JobsOut(w, k) - if d.job.IsFor(k) then 1 else 0
      {
        CountDrop(w.batch, DoneFor(k));
      }
    }
  }

  lemma WorkerConserves(w: World, ok: bool, usable: bool)
    requires Conserved(w)
    ensures Conserved(Take(w)) && Conserved(Finish(w, ok, usable))
  {
    hide CountIf;
    if w.running.Some? {
      forall k | 0 <= k < |w.entries|
        ensures JobsOut(Finish(w, ok, usable), k) == JobsOut(w, k)
      {
        CountAdd(w.done, Done(w.running.value, ok, usable), DoneFor(k));
      }
    } else if w.jobs != [] {
      forall k | 0 <= k < |w.entries|
        ensures JobsOut(Take(w), k) == JobsOut(w, k)
      {
        CountDrop(w.jobs, JobFor(k));
      }
    }
  }

  lemma NextConserves(w: World, s: Step)
    requires Conserved(w) && !s.DieStep?
    ensures Conserved(Next(w, s))
  {
    hide Conserved, Maintain, EnsureRoots, Receive, Process, Take, Finish;
    match s
    case RootsStep(now) => RootsConserve(w, now);
    case MaintainStep(i, now) =>
      if i < |w.entries| { MaintainConserves(w, i, now); }
    case ReceiveStep => ReceiveConserves(w);
    case ProcessStep(now) => ProcessConserves(w, now);
    case DisturbStep(i, e) =>
      if i < |w.entries| { DisturbConserves(w, i, e); }
    case TakeStep => WorkerConserves(w, true, true);
    case FinishStep(ok, usable) => WorkerConserves(w, ok, usable);
  }

  lemma DisturbConserves(w: World, i: nat, e: Entry)
    requires Conserved(w) && i < |w.entries|
    ensures Conserved(Disturbed(w, i, e))
  {
    forall k | 0 <= k < |w.entries|
      ensures JobsOut(Disturbed(w, i, e), k) == JobsOut(w, k)
    {
    }
  }

  /** In every interleaving with the worker alive: `outstanding` counts the jobs queued, running and finished, and a
      source is in flight if and only if exactly one job of its own is in the system. */
  lemma {:induction false} RunConserves(w: World, steps: seq<Step>)
    requires AtRest(w) && forall k :: 0 <= k < |steps| ==> !steps[k].DieStep?
    ensures Conserved(Run(w, steps))
    ensures |Run(w, steps).entries| == |w.entries|
  {
    if steps == [] {
      forall i | 0 <= i < |w.entries|
        ensures JobsOut(w, i) == 0
      {
      }
    } else {
      hide Conserved, AtRest;
      RunConserves(w, steps[..|steps| - 1]);
      NextConserves(Run(w, steps[..|steps| - 1]), steps[|steps| - 1]);
      NextKeepsSources(Run(w, steps[..|steps| - 1]), steps[|steps| - 1]);
    }
  }

  lemma NextKeepsSources(w: World, s: Step)
    ensures |Next(w, s).entries| == |w.entries|
  {
  }

  // ----- nothing is stuck while the worker lives -----

  /** How far the jobs out have still to go. */
  function Work(w: World): nat {
    4 * |w.jobs| + (if w.running.Some? then 3 else 0) + 2 * |w.done| + |w.batch|
  }

  /** The step carries a job one stage on: taken, finished, received, or acted upon. */
  predicate Moves(w: World, s: Step) {
    match s
    case ReceiveStep => w.done != []
    case ProcessStep(_) => w.batch != []
    case TakeStep => w.alive && w.running.None? && w.jobs != []
    case FinishStep(_, _) => w.alive && w.running.Some?
    case _ => false
  }

  predicate Submits(w: World, s: Step) {
    |Next(w, s).jobs| > |w.jobs|
  }

  function Moved(w: World, steps: seq<Step>): nat {
    if steps == [] then 0
    else
      var n := |steps| - 1;
      Moved(w, steps[..n]) + if Moves(Run(w, steps[..n]), steps[n]) then 1 else 0
  }

  function Submitted(w: World, steps: seq<Step>): nat {
    if steps == [] then 0
    else
      var n := |steps| - 1;
      Submitted(w, steps[..n]) + if Submits(Run(w, steps[..n]), steps[n]) then 1 else 0
  }

  lemma NextWorks(w: World, s: Step)
    requires !s.DieStep?
    ensures Next(w, s).alive == w.alive
    ensures Work(Next(w, s)) == Work(w) + (if Submits(w, s) then 4 else 0) - (if Moves(w, s) then 1 else 0)
  {
  }

  /** Every job is somewhere on its way: the moves made and the moves still to make are
      four for each job there ever was, in every interleaving and whatever the outcomes. */
  lemma {:induction false} MovesAreAccounted(w: World, steps: seq<Step>)
    requires forall k :: 0 <= k < |steps| ==> !steps[k].DieStep?
    ensures Run(w, steps).alive == w.alive
    ensures Moved(w, steps) + Work(Run(w, steps)) == Work(w) + 4 * Submitted(w, steps)
  {
    if steps != [] {
      hide Work, Next, Moves, Submits;
      MovesAreAccounted(w, steps[..|steps| - 1]);
      NextWorks(Run(w, steps[..|steps| - 1]), steps[|steps| - 1]);
    }
  }

  /** No job is anywhere, and no source is waiting for one. */
  predicate AllReturned(w: World) {
    w.outstanding == 0 && Work(w) == 0 && forall i :: 0 <= i < |w.entries| ==> !w.entries[i].inFlight
  }

  lemma NoWorkMeansReturned(w: World)
    requires Conserved(w) && Work(w) == 0
    ensures AllReturned(w)
  {
    forall i | 0 <= i < |w.entries|
      ensures JobsOut(w, i) == 0
    {
    }
  }

  lemma WorkCanMove(w: World)
    requires w.alive && Work(w) > 0
    ensures Moves(w, ProcessStep(0.0)) || Moves(w, ReceiveStep) || Moves(w, FinishStep(true, true)) || Moves(w, TakeStep)
  {
  }

  lemma {:induction false} RunStaysConserved(w: World, steps: seq<Step>)
    requires Conserved(w) && forall k :: 0 <= k < |steps| ==> !steps[k].DieStep?
    ensures Conserved(Run(w, steps))
  {
    if steps != [] {
      hide Conserved;
      RunStaysConserved(w, steps[..|steps| - 1]);
      NextConserves(Run(w, steps[..|steps| - 1]), steps[|steps| - 1]);
    }
  }

  /** Nothing sticks while the worker lives, in any interleaving and whatever the outcomes: a run can make no more
      moves than the work it began with and four for each job submitted since, and one has
      nothing left to move exactly when every source has been returned and nothing is outstanding. */
  lemma EveryJobComesBack(w: World, steps: seq<Step>)
    requires Conserved(w) && forall k :: 0 <= k < |steps| ==> !steps[k].DieStep?
    ensures Moved(w, steps) + Work(Run(w, steps)) == Work(w) + 4 * Submitted(w, steps)
    ensures (forall s :: !Moves(Run(w, steps), s)) <==> AllReturned(Run(w, steps))
  {
    var w' := Run(w, steps);
    MovesAreAccounted(w, steps);
    RunStaysConserved(w, steps);
    if Work(w') > 0 {
      WorkCanMove(w');
    } else {
      NoWorkMeansReturned(w');
    }
  }

  /** One step of whoever can move: the loop acts, then receives; the worker finishes, then takes. */
  function Drain(w: World, now: real, result: nat -> (bool, bool)): Step {
    if w.batch != [] then ProcessStep(now)
    else if w.done != [] then ReceiveStep
    else if w.running.Some? then FinishStep(result(Work(w)).0, result(Work(w)).1)
    else TakeStep
  }

  lemma DrainProgresses(w: World, now: real, result: nat -> (bool, bool))
    requires w.alive && Work(w) > 0
    ensures var s := Drain(w, now, result);
            Moves(w, s) && !s.DieStep? && !Submits(w, s)
  {
  }

  /** And such a run there is, for every sequence of outcomes: as many moves as there is work return every source. */
  lemma {:induction false} CanDrain(w: World, now: real, result: nat -> (bool, bool)) returns (steps: seq<Step>)
    requires Conserved(w)
    ensures |steps| == Work(w) && AllReturned(Run(w, steps))
    decreases Work(w)
  {
    if Work(w) == 0 {
      steps := [];
      NoWorkMeansReturned(w);
    } else {
      var s := Drain(w, now, result);
      assert w.alive;
      hide Conserved, Work, Next, Drain, Moves, Submits, AllReturned;
      DrainProgresses(w, now, result);
      NextWorks(w, s);
      NextConserves(w, s);
      var rest := CanDrain(Next(w, s), now, result);
      steps := [s] + rest;
      RunFrom(w, s, rest);
    }
  }

  lemma {:induction false} RunFrom(w: World, s: Step, rest: seq<Step>)
    ensures Run(w, [s] + rest) == Run(Next(w, s), rest)
  {
    if rest == [] {
      assert ([s] + rest)[..0] == [] && ([s] + rest)[0] == s;
      assert [s] + rest == [s];
      assert Run(w, []) == w;
    } else {
      var n := |rest|;
      assert ([s] + rest)[..n] == [s] + rest[..n - 1];
      RunFrom(w, s, rest[..n - 1]);
    }
  }

  // ----- and what its death strands -----

  /** A source whose job died with the worker. */
  predicate Stranded(w: World, i: nat) {
    !w.alive && i < |w.entries| && w.entries[i].inFlight && JobsOut(w, i) == 0
  }

  /** It stays marked in flight for ever: nothing but its own result clears the mark. */
  lemma {:induction false} StrandedForGood(w: World, i: nat, steps: seq<Step>)
    requires Stranded(w, i) && w.jobs == [] && w.running.None?
    ensures Stranded(Run(w, steps), i) && Run(w, steps).jobs == [] && Run(w, steps).running.None?
  {
    if steps != [] {
      StrandedForGood(w, i, steps[..|steps| - 1]);
      StillStranded(Run(w, steps[..|steps| - 1]), i, steps[|steps| - 1]);
    }
  }

  lemma StillStranded(w: World, i: nat, s: Step)
    requires Stranded(w, i) && w.jobs == [] && w.running.None?
    ensures Stranded(Next(w, s), i) && Next(w, s).jobs == [] && Next(w, s).running.None?
  {
    hide CountIf;
    if s.ReceiveStep? && w.done != [] {
      CountDrop(w.done, DoneFor(i));
      CountAdd(w.batch, w.done[0], DoneFor(i));
    } else if s.ProcessStep? && w.batch != [] {
      CountDrop(w.batch, DoneFor(i));
    }
  }

  /** The worker is gone, with all it had not finished; nothing says a source is in the system twice. */
  ghost predicate Orphaned(w: World, i: nat) {
    && !w.alive && w.jobs == [] && w.running.None?
    && i < |w.entries| && JobsOut(w, i) <= if w.entries[i].inFlight then 1 else 0
  }

  /** The step is a turn of the loop that would send a job for source i. */
  predicate Asks(w: World, i: nat, s: Step) {
    && s.MaintainStep? && s.index == i && i < |w.entries|
    && !w.entries[i].inFlight && s.now >= w.entries[i].retryAfter
    && (!w.entries[i].hasAddresses || (w.entries[i].NeedsKeys(s.now) && w.tls))
  }

  ghost predicate EverAsks(w: World, i: nat, steps: seq<Step>) {
    exists k :: 0 <= k < |steps| && Asks(Run(w, steps[..k]), i, steps[k])
  }

  lemma OrphanStep(w: World, i: nat, s: Step)
    requires Orphaned(w, i)
    ensures Orphaned(Next(w, s), i)
    ensures Stranded(Next(w, s), i) <==> Stranded(w, i) || Asks(w, i, s)
  {
    hide CountIf;
    if s.ReceiveStep? && w.done != [] {
      CountDrop(w.done, DoneFor(i));
      CountAdd(w.batch, w.done[0], DoneFor(i));
    } else if s.ProcessStep? && w.batch != [] {
      CountDrop(w.batch, DoneFor(i));
    } else if s.DieStep? {
      assert w == Die(w);
    }
  }

  /** Exactly which sources a dead worker costs, in every run from there: those whose
      job it held, and each that is due for a job and asks for one. */
  lemma {:induction false} StrandedExactly(w: World, i: nat, steps: seq<Step>)
    requires Orphaned(w, i)
    ensures Orphaned(Run(w, steps), i)
    ensures Stranded(Run(w, steps), i) <==> Stranded(w, i) || EverAsks(w, i, steps)
  {
    if steps != [] {
      hide Orphaned, Stranded, Asks, Next;
      var n := |steps| - 1;
      StrandedExactly(w, i, steps[..n]);
      OrphanStep(Run(w, steps[..n]), i, steps[n]);
      AsksOneMore(w, i, steps);
    }
  }

  lemma AsksOneMore(w: World, i: nat, steps: seq<Step>)
    requires steps != []
    ensures var n := |steps| - 1;
            EverAsks(w, i, steps) <==> EverAsks(w, i, steps[..n]) || Asks(Run(w, steps[..n]), i, steps[n])
  {
    hide Asks, Run;
    var n := |steps| - 1;
    forall k | 0 <= k < n
      ensures steps[..n][..k] == steps[..k] && steps[..n][k] == steps[k]
    {
    }
    if EverAsks(w, i, steps) && !Asks(Run(w, steps[..n]), i, steps[n]) {
      var k :| 0 <= k < |steps| && Asks(Run(w, steps[..k]), i, steps[k]);
      assert Asks(Run(w, steps[..n][..k]), i, steps[..n][k]);
    }
    if EverAsks(w, i, steps[..n]) {
      var k :| 0 <= k < n && Asks(Run(w, steps[..n][..k]), i, steps[..n][k]);
      assert Asks(Run(w, steps[..k]), i, steps[k]);
    }
  }

  /** So conservation needs the worker alive, and exactly so: in every run after a death a source is marked with nothing
      out for it if and only if its job was out and unfinished, or it was idle and has since come due for one. */
  lemma DeathStrands(w: World, i: nat, steps: seq<Step>)
    requires Conserved(w) && i < |w.entries|
    ensures Stranded(Run(Die(w), steps), i)
            <==> (w.entries[i].inFlight && CountIf(w.done, DoneFor(i)) + CountIf(w.batch, DoneFor(i)) == 0)
                 || EverAsks(Die(w), i, steps)
  {
    assert CountIf([], JobFor(i)) == 0;
    assert JobsOut(w, i) == if w.entries[i].inFlight then 1 else 0;
    StrandedExactly(Die(w), i, steps);
  }

  /** Both happen: a source that asks just before the worker dies, and one that asks just after. */
  lemma DeathStrandsEitherWay()
    ensures var w := World([Entry(false, false, false, false, 0.0, 0.0)], false, 0.0, 0, true, [], None, [], []);
            && AtRest(w)
            && Stranded(Run(w, [MaintainStep(0, 0.0), DieStep]), 0)
            && Stranded(Run(w, [DieStep, MaintainStep(0, 0.0)]), 0)
  {
    var w := World([Entry(false, false, false, false, 0.0, 0.0)], false, 0.0, 0, true, [], None, [], []);
    RunTwo(w, MaintainStep(0, 0.0), DieStep);
    RunTwo(w, DieStep, MaintainStep(0, 0.0));
    assert CountIf([], JobFor(0)) == 0 && CountIf([], DoneFor(0)) == 0;
  }

  lemma RunTwo(w: World, s: Step, t: Step)
    ensures Run(w, [s, t]) == Next(Next(w, s), t)
  {
    assert [s, t][..1] == [s] && [s][..0] == [];
    assert Run(w, [s]) == Next(Run(w, []), s);
  }

  // ----- what a turn asks for and what a result changes, in seconds -----

  /** A turn of the loop asks for exactly one thing at most: the addresses of a source that has none, else the keys of one
      that should have them and has not, or has had them past their time, for which a root store is needed. */
  lemma TurnExactly(w: World, i: nat, now: real)
    requires w.alive && i < |w.entries|
    ensures var e, w' := w.entries[i], Maintain(w, i, now);
            var idle := !e.inFlight && now >= e.retryAfter;
            var due := e.hasAddresses && e.nts && (!e.keyed || now > e.rekeyAfter);
            && w'.jobs == w.jobs + (if idle && !e.hasAddresses then [Resolve(i)]
                                    else if idle && due && w.tls then [Handshake(i)] else [])
            && w'.outstanding - w.outstanding == |w'.jobs| - |w.jobs|
            && w'.entries == w.entries[i := e.(
                 inFlight := e.inFlight || (idle && (!e.hasAddresses || (due && w.tls))),
                 retryAfter := if idle && due && !w.tls then now + 15.0 else e.retryAfter)]
            && w' == w.(jobs := w'.jobs, outstanding := w'.outstanding, entries := w'.entries)
  {
  }

  /** The root store is asked for while there is none and some source is to have keys, at most every fifteen seconds. */
  lemma RootsExactly(w: World, now: real)
    requires w.alive
    ensures var ask := !w.tls && now >= w.rootsAfter && exists i :: 0 <= i < |w.entries| && w.entries[i].nts;
            EnsureRoots(w, now) == if ask then
              w.(jobs := w.jobs + [Roots], outstanding := w.outstanding + 1, rootsAfter := now + 15.0) else w
  {
  }

  /** What a result changes in its source: it is in flight no more; addresses come with a resolution and with a handshake that
      reach it, keys with a handshake; after a failure, or with no address in reach, fifteen seconds pass first;
      keys are good for a day, and a failed renewal puts the next one off by fifteen seconds. */
  lemma ResultExactly(e: Entry, d: Done, now: real)
    requires !d.job.Roots?
    ensures var e', shake, good := Finished(e, d, now), d.job.Handshake?, d.ok && d.usable;
            && !e'.inFlight
            && e'.hasAddresses == (e.hasAddresses || good)
            && e'.keyed == (e.keyed || (shake && good)) && e'.nts == (e.nts || (shake && good))
            && e'.retryAfter == (if good then 0.0 else now + 15.0)
            && e'.rekeyAfter == (if shake && good then now + 86400.0 else if shake && !d.ok then now + 15.0 else e.rekeyAfter)
  {
  }

  /** Acting on one result: it goes to its own source, and no other is touched; a root store, once there, stays. */
  lemma ResultGoesHome(w: World, now: real)
    requires w.batch != []
    ensures var d, w' := w.batch[0], Process(w, now);
            && w'.batch == w.batch[1..] && w' == w.(batch := w'.batch, entries := w'.entries, tls := w'.tls)
            && w'.tls == (w.tls || (d.job.Roots? && d.ok)) && |w'.entries| == |w.entries|
            && forall i :: 0 <= i < |w.entries| ==>
                 w'.entries[i] == if d.job.IsFor(i) then Finished(w.entries[i], d, now) else w.entries[i]
  {
  }

  /** So what failed is not tried again for fifteen seconds, whatever the turns between. */
  lemma FailureRests(w: World, i: nat, d: Done, now: real, later: real)
    requires i < |w.entries| && d.job.IsFor(i) && !(d.ok && d.usable) && w.entries[i] == Finished(w.entries[i], d, now)
    requires later < now + 15.0
    ensures Maintain(w, i, later) == w
  {
  }

  /** And a source with addresses and new keys is left alone for a day. */
  lemma NewKeysLast(w: World, i: nat, d: Done, e: Entry, now: real, later: real)
    requires i < |w.entries| && d == Done(Handshake(i), true, true) && w.entries[i] == Finished(e, d, now)
    requires later <= now + 86400.0
    ensures Maintain(w, i, later) == w
  {
  }

  /** The two queues are first in, first out, and the count follows the jobs. */
  lemma QueuesInOrder(w: World, ok: bool, usable: bool)
    ensures w.alive && w.running.None? && w.jobs != []
            ==> [Take(w).running.value] + Take(w).jobs == w.jobs && Take(w).outstanding == w.outstanding
    ensures w.alive && w.running.Some?
            ==> Finish(w, ok, usable).done == w.done + [Done(w.running.value, ok, usable)] && Finish(w, ok, usable).running.None?
    ensures w.done != [] && w.outstanding > 0
            ==> Receive(w).batch + Receive(w).done == w.batch + w.done && |Receive(w).done| == |w.done| - 1
                && Receive(w).outstanding == w.outstanding - 1
  {
    if w.done != [] {
      assert w.done == [w.done[0]] + w.done[1..];
    }
  }
}
