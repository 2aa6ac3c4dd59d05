/** The daemon's loop over its sources and its worker's answers, in place, as runs of the worker protocol. */
module Timed {
  import opened Numbers
  import opened Worker

  function MaintainSteps(n: nat, now: real): (r: seq<Step>)
    ensures |r| == n && forall i :: 0 <= i < n ==> r[i] == MaintainStep(i, now)
  {
    seq(n, i requires 0 <= i < n => MaintainStep(i, now))
  }

  function Copies(n: nat, s: Step): (r: seq<Step>)
    ensures |r| == n && forall i :: 0 <= i < n ==> r[i] == s
  {
    seq(n, _ => s)
  }

  lemma RunOneMore(w: World, steps: seq<Step>, s: Step)
    ensures Run(w, steps + [s]) == Next(Run(w, steps), s)
  {
    assert (steps + [s])[..|steps|] == steps;
  }

  lemma RunNothing(w: World, s: Step)
    ensures Run(w, Copies(0, s)) == w
  {
  }

  lemma OneMoreCopy(w: World, n: nat, s: Step)
    ensures Run(w, Copies(n + 1, s)) == Next(Run(w, Copies(n, s)), s)
  {
    assert Copies(n + 1, s) == Copies(n, s) + [s];
    RunOneMore(w, Copies(n, s), s);
  }

  lemma OneMoreReceive(w: World, n: nat)
    ensures Run(w, Copies(n + 1, ReceiveStep)) == Receive(Run(w, Copies(n, ReceiveStep)))
  {
    OneMoreCopy(w, n, ReceiveStep);
  }

  lemma {:induction false} RunAppend(w: World, a: seq<Step>, b: seq<Step>)
    ensures Run(w, a + b) == Run(Run(w, a), b)
  {
    if b == [] {
      assert a + b == a;
    } else {
      assert (a + b)[..|a + b| - 1] == a + b[..|b| - 1];
      RunAppend(w, a, b[..|b| - 1]);
    }
  }

  class Timed {
    var entries: seq<Entry>
    var tls: bool
    var rootsAfter: real
    /** The worker's handle: two queues and the count of jobs out. */
    var outstanding: nat
    var jobs: seq<Job>
    var done: seq<Done>
    /** The worker's side. */
    var alive: bool
    var running: Option<Job>

    ghost function AsWorld(batch: seq<Done>): World
      reads this
    {
      World(entries, tls, rootsAfter, outstanding, alive, jobs, running, done, batch)
    }

    constructor (entries: seq<Entry>)
      ensures this.entries == entries
      ensures (forall i :: 0 <= i < |entries| ==> !entries[i].inFlight) ==> AtRest(AsWorld([]))
    {
      this.entries, tls, rootsAfter := entries, false, 0.0;
      outstanding, jobs, done, alive, running := 0, [], [], true, None;
    }

    method Submit(job: Job)
      modifies this`jobs, this`outstanding
      ensures AsWorld([]) == Worker.Submit(old(AsWorld([])), job)
    {
      if alive {
        jobs := jobs + [job];
        outstanding := outstanding + 1;
      }
    }

    /** One turn over the sources: each that is due is marked and gets a job. */
    method MaintainSources(now: real)
      modifies this
      ensures AsWorld([]) == Run(old(AsWorld([])), MaintainSteps(|old(entries)|, now))
      ensures old(Conserved(AsWorld([]))) ==> Conserved(AsWorld([]))
    {
      ghost var start := AsWorld([]);
      for index := 0 to |entries|
        invariant |entries| == |old(entries)|
        invariant AsWorld([]) == Run(start, MaintainSteps(index, now))
        invariant Conserved(start) ==> Conserved(AsWorld([]))
      {
        hide Conserved, Run;
        ghost var before := AsWorld([]);
        assert MaintainSteps(index + 1, now) == MaintainSteps(index, now) + [MaintainStep(index, now)];
        RunOneMore(start, MaintainSteps(index, now), MaintainStep(index, now));
        if Conserved(before) {
          NextConserves(before, MaintainStep(index, now));
        }
        MaintainOne(index, now);
      }
    }

    method MaintainOne(index: nat, now: real)
      requires index < |entries|
      modifies this
      ensures AsWorld([]) == Maintain(old(AsWorld([])), index, now)
    {
      var entry := entries[index];
      if entry.inFlight || now < entry.retryAfter {
        return;
      }
      if !entry.hasAddresses {
        entries := entries[index := entry.(inFlight := true)];
        Submit(Resolve(index));
        return;
      }
      if !entry.NeedsKeys(now) {
        return;
      }
      if !tls {
        entries := entries[index := entry.(retryAfter := now + RETRY_INTERVAL)];
        return;
      }
      entries := entries[index := entry.(inFlight := true)];
      Submit(Handshake(index));
    }

    /** Drains the result queue, up to the first receive that finds nothing. */
    method Collect() returns (out: seq<Done>)
      modifies this`done, this`outstanding
      ensures out == old(done) && done == []
      ensures AsWorld(out) == Run(old(AsWorld([])), Copies(|old(done)| + 1, ReceiveStep))
    {
      hide *;
      out := [];
      ghost var start := AsWorld([]);
      RunNothing(start, ReceiveStep);
      while true
        invariant out + done == old(done)
        invariant AsWorld(out) == Run(start, Copies(|out|, ReceiveStep))
        decreases |done|
      {
        OneMoreReceive(start, |out|);
        var received := TryReceive(out);
        if received.None? {
          return;
        }
        out := out + [received.value];
      }
    }

    /** The channel's `try_recv`, with the count it keeps: empty, gone, or one result. */
    method TryReceive(ghost batch: seq<Done>) returns (received: Option<Done>)
      modifies this`done, this`outstanding
      ensures received.None? <==> old(done) == []
      ensures received.None? ==> done == [] && AsWorld(batch) == Receive(old(AsWorld(batch)))
      ensures received.Some? ==> old(done) == [received.value] + done
                                 && AsWorld(batch + [received.value]) == Receive(old(AsWorld(batch)))
    {
      if done != [] {
        received := Some(done[0]);
        done := done[1..];
        outstanding := if outstanding > 0 then outstanding - 1 else 0;
      } else {
        received := None;
        if !alive {
          outstanding := 0;
        }
      }
    }

    /** Drains the result queue and then acts on each result in order. */
    method CollectWork(now: real)
      modifies this
      ensures AsWorld([]) == Run(old(AsWorld([])), Copies(|old(done)| + 1, ReceiveStep)
                                                   + Copies(|old(done)|, ProcessStep(now)))
      ensures old(Conserved(AsWorld([]))) ==> Conserved(AsWorld([]))
    {
      ghost var start := AsWorld([]);
      var collected := Collect();
      ghost var middle := AsWorld(collected);
      if Conserved(start) {
        CopiesConserve(start, |collected| + 1, ReceiveStep);
      }
      RunNothing(middle, ProcessStep(now));
      for k := 0 to |collected|
        invariant AsWorld(collected[k..]) == Run(middle, Copies(k, ProcessStep(now)))
      {
        hide Run;
        OneMoreCopy(middle, k, ProcessStep(now));
        assert collected[k..][1..] == collected[k + 1..] && collected[k..][0] == collected[k];
        ProcessOne(collected[k], collected[k..], now);
      }
      RunAppend(start, Copies(|collected| + 1, ReceiveStep), Copies(|collected|, ProcessStep(now)));
      if Conserved(start) {
        CopiesConserve(middle, |collected|, ProcessStep(now));
      }
    }

    method ProcessOne(d: Done, ghost batch: seq<Done>, now: real)
      requires batch != [] && batch[0] == d
      modifies this`entries, this`tls
      ensures AsWorld(batch[1..]) == Process(old(AsWorld(batch)), now)
    {
      match d.job
      case Roots =>
        if d.ok {
          tls := true;
        }
      case Resolve(index) =>
        if index >= |entries| {
          return;
        }
        var entry := entries[index].(inFlight := false);
        if d.ok && d.usable {
          entry := entry.(hasAddresses := true, retryAfter := 0.0);
        } else {
          entry := entry.(retryAfter := now + RETRY_INTERVAL);
        }
        entries := entries[index := entry];
      case Handshake(index) =>
        if index >= |entries| {
          return;
        }
        var entry := entries[index].(inFlight := false);
        if !d.ok {
          entry := entry.(retryAfter := now + RETRY_INTERVAL, rekeyAfter := now + RETRY_INTERVAL);
        } else if !d.usable {
          entry := entry.(retryAfter := now + RETRY_INTERVAL);
        } else {
          entry := entry.(keyed := true, nts := true, hasAddresses := true);
          entry := entry.(rekeyAfter := now + REKEY_INTERVAL, retryAfter := 0.0);
        }
        entries := entries[index := entry];
    }
  }

  lemma {:induction false} CopiesConserve(w: World, n: nat, s: Step)
    requires Conserved(w) && !s.DieStep?
    ensures Conserved(Run(w, Copies(n, s)))
  {
    if n > 0 {
      hide Conserved, Next;
      CopiesConserve(w, n - 1, s);
      OneMoreCopy(w, n - 1, s);
      NextConserves(Run(w, Copies(n - 1, s)), s);
    }
  }
}
