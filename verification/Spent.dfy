/**
 A source together with its entry in the loop: what becomes of one that runs out of cookies.
 It is neither polled nor given new ones until its keys are due for renewal.
 */
module Spent {
  import opened Numbers
  import opened Wire
  import opened Reply
  import opened Worker

  /** One source: its security, whether a request is out, how many were sent, and the loop it is entry `i` of. */
  datatype Client = Client(world: World, security: Security, pending: bool, requests: nat)

  datatype Event =
    | Work(s: Step, c2s: Bytes, s2c: Bytes, cookies: seq<Bytes>)
    | PollDue
    | Lost(now: real, last: bool)
    | Answered(fresh': seq<Bytes>, settled: bool)
    | Refused

  function Updated(w: World, i: nat, e: Entry): World
    requires i < |w.entries|
  {
    w.(entries := w.entries[i := e])
  }

  /** The step acts on a handshake for source i that has succeeded. */
  predicate Grants(w: World, i: nat, s: Step) {
    s.ProcessStep? && w.batch != [] && w.batch[0] == Done(Handshake(i), true, true) && i < |w.entries|
  }

  /** `Work` is any step of loop or worker that is not about the source itself, and carries what a
      handshake would give; the rest happen to the source: the `last` of eight losses drops its addresses. */
  function After(c: Client, i: nat, e: Event): Client
    requires i < |c.world.entries|
  {
    var entry := c.world.entries[i];
    match e
    case Work(s, c2s, s2c, cookies) =>
      if s.DisturbStep? && s.index == i then c
      else c.(world := Next(c.world, s), security := if Grants(c.world, i, s) then Nts(c2s, s2c, cookies) else c.security)
    case PollDue =>
      if !entry.hasAddresses || c.pending || !c.security.CanPoll() then c
      else
        c.(pending := true, requests := c.requests + 1,
           security := if c.security.Nts? then c.security.(cookies := c.security.cookies[..|c.security.cookies| - 1])
                       else c.security)
    case Lost(now, last) =>
      if !c.pending then c
      else
        c.(pending := false,
           world := if last then Updated(c.world, i, entry.(hasAddresses := false, retryAfter := now)) else c.world)
    case Answered(fresh', settled) =>
      if !c.pending then c
      else c.(pending := !settled, security := Restocked(c.security, fresh'))
    case Refused =>
      if !c.pending || !c.security.Nts? then c
      else
        c.(pending := false, security := NtsPending,
           world := Updated(c.world, i, entry.(keyed := false, rekeyAfter := 0.0, retryAfter := 0.0)))
  }

  /** What a lost poll does to the entry: the last of eight drops its addresses, and lets it look for new ones at once. */
  lemma LossDropsAddresses(c: Client, i: nat, now: real, last: bool)
    requires i < |c.world.entries| && c.pending
    ensures var c', e := After(c, i, Lost(now, last)), c.world.entries[i];
            && !c'.pending && c'.security == c.security && c'.requests == c.requests
            && c'.world == c.world.(entries := c'.world.entries)
            && c'.world.entries == (if last then c.world.entries[i := e.(hasAddresses := false, retryAfter := now)]
                                    else c.world.entries)
  {
  }

  lemma AfterKeepsSources(c: Client, i: nat, e: Event)
    requires i < |c.world.entries|
    ensures |After(c, i, e).world.entries| == |c.world.entries|
  {
  }

  function Run(c: Client, i: nat, events: seq<Event>): (r: Client)
    requires i < |c.world.entries|
    ensures |r.world.entries| == |c.world.entries|
  {
    if events == [] then c
    else
      var n := |events| - 1;
      AfterKeepsSources(Run(c, i, events[..n]), i, events[n]);
      After(Run(c, i, events[..n]), i, events[n])
  }

  predicate NoHandshake(w: World, i: nat) {
    && Handshake(i) !in w.jobs && w.running != Some(Handshake(i))
    && (forall k :: 0 <= k < |w.done| ==> w.done[k].job != Handshake(i))
    && (forall k :: 0 <= k < |w.batch| ==> w.batch[k].job != Handshake(i))
  }

  /** No cookie left, no request out that could bring one, no handshake under way; and the entry knows the source has
      keys, which is all it knows. */
  predicate Starved(c: Client, i: nat)
    requires i < |c.world.entries|
  {
    && c.security.Nts? && c.security.cookies == [] && !c.pending
    && NoHandshake(c.world, i)
    && c.world.entries[i].nts && c.world.entries[i].keyed
  }

  /** The event is a turn of the loop that asks for a handshake for source i. */
  predicate Renews(w: World, i: nat, e: Event)
    requires i < |w.entries|
  {
    var entry := w.entries[i];
    && e.Work? && e.s.MaintainStep? && e.s.index == i
    && !entry.inFlight && e.s.now >= entry.retryAfter
    && entry.hasAddresses && w.tls && e.s.now > entry.rekeyAfter
  }

  predicate Kills(e: Event) {
    e.Work? && e.s.DieStep?
  }

  /** One event, while starved and with the worker alive: nothing but a renewal changes anything. */
  lemma StarvedStep(c: Client, i: nat, e: Event)
    requires i < |c.world.entries| && Starved(c, i) && c.world.alive && !Kills(e)
    ensures var c' := After(c, i, e);
            && |c'.world.entries| == |c.world.entries| && c'.world.alive
            && (Starved(c', i) <==> !Renews(c.world, i, e))
            && c'.requests == c.requests
            && c'.world.entries[i].rekeyAfter == c.world.entries[i].rekeyAfter
  {
    AfterKeepsSources(c, i, e);
    if e.Work? && !(e.s.DisturbStep? && e.s.index == i) {
      StarvedWork(c.world, i, e.s);
    }
  }

  lemma StarvedWork(w: World, i: nat, s: Step)
    requires i < |w.entries| && NoHandshake(w, i) && w.entries[i].nts && w.entries[i].keyed && w.alive && !s.DieStep?
    requires !(s.DisturbStep? && s.index == i)
    ensures var w' := Next(w, s);
            && !Grants(w, i, s) && w'.alive && |w'.entries| == |w.entries|
            && w'.entries[i].nts && w'.entries[i].keyed && w'.entries[i].rekeyAfter == w.entries[i].rekeyAfter
            && (NoHandshake(w', i) <==> !Renews(w, i, Work(s, [], [], [])))
  {
    match s
    case MaintainStep(k, now) =>
      if Renews(w, i, Work(s, [], [], [])) {
        assert Next(w, s).jobs[|w.jobs|] == Handshake(i);
      }
    case FinishStep(ok, usable) =>
    case ProcessStep(now) =>
      if w.batch != [] {
        assert w.batch[0].job != Handshake(i);
      }
    case _ =>
  }

  ghost predicate StarvedThroughout(c: Client, i: nat, events: seq<Event>)
    requires i < |c.world.entries|
  {
    forall k :: 0 <= k <= |events| ==> Starved(Run(c, i, events[..k]), i)
  }

  ghost predicate EverRenews(c: Client, i: nat, events: seq<Event>)
    requires i < |c.world.entries|
  {
    exists k :: 0 <= k < |events| && Renews(Run(c, i, events[..k]).world, i, events[k])
  }

  /** Exactly when a spent source is seen to again: in every run with the worker alive it stays without a cookie, a
      request or a handshake if and only if the loop takes no turn at it past the time its keys are due. */
  lemma {:induction false} StarvedExactly(c: Client, i: nat, events: seq<Event>)
    requires i < |c.world.entries| && Starved(c, i) && c.world.alive
    requires forall k :: 0 <= k < |events| ==> !Kills(events[k])
    ensures StarvedThroughout(c, i, events) <==> !EverRenews(c, i, events)
    ensures !EverRenews(c, i, events) ==>
              && Run(c, i, events).world.alive && Run(c, i, events).requests == c.requests
              && Run(c, i, events).world.entries[i].rekeyAfter == c.world.entries[i].rekeyAfter
  {
    if events == [] {
      assert events[..0] == events;
    } else {
      hide Starved, Renews, After, Kills, StarvedThroughout, EverRenews, Run;
      var n := |events| - 1;
      var front := events[..n];
      StarvedExactly(c, i, front);
      FrontAndLast(c, i, events);
      RunLast(c, i, events);
      if !EverRenews(c, i, front) {
        StarvedNow(c, i, front);
        StarvedStep(Run(c, i, front), i, events[n]);
      }
    }
  }

  lemma StarvedNow(c: Client, i: nat, events: seq<Event>)
    requires i < |c.world.entries| && StarvedThroughout(c, i, events)
    ensures Starved(Run(c, i, events), i)
  {
    hide Starved, Run;
    assert Starved(Run(c, i, events[..|events|]), i) && events[..|events|] == events;
  }

  lemma RunLast(c: Client, i: nat, events: seq<Event>)
    requires i < |c.world.entries| && events != []
    ensures Run(c, i, events) == After(Run(c, i, events[..|events| - 1]), i, events[|events| - 1])
  {
  }

  lemma FrontAndLast(c: Client, i: nat, events: seq<Event>)
    requires i < |c.world.entries| && events != []
    ensures var n := |events| - 1;
            && (StarvedThroughout(c, i, events)
                <==> StarvedThroughout(c, i, events[..n]) && Starved(Run(c, i, events), i))
            && (EverRenews(c, i, events)
                <==> EverRenews(c, i, events[..n]) || Renews(Run(c, i, events[..n]).world, i, events[n]))
  {
    StarvedFront(c, i, events);
    RenewsFront(c, i, events);
  }

  lemma FrontIs(events: seq<Event>)
    requires events != []
    ensures var n := |events| - 1;
            forall k :: 0 <= k <= n ==> events[..n][..k] == events[..k] && (k < n ==> events[..n][k] == events[k])
  {
  }

  lemma StarvedFront(c: Client, i: nat, events: seq<Event>)
    requires i < |c.world.entries| && events != []
    ensures var n := |events| - 1;
            StarvedThroughout(c, i, events) <==> StarvedThroughout(c, i, events[..n]) && Starved(Run(c, i, events), i)
  {
    hide Starved, Run;
    var n := |events| - 1;
    FrontIs(events);
    assert events[..|events|] == events;
    if StarvedThroughout(c, i, events) {
      forall k | 0 <= k <= n
        ensures Starved(Run(c, i, events[..n][..k]), i)
      {
        assert Starved(Run(c, i, events[..k]), i);
      }
    }
    if StarvedThroughout(c, i, events[..n]) && Starved(Run(c, i, events), i) {
      forall k | 0 <= k <= |events|
        ensures Starved(Run(c, i, events[..k]), i)
      {
        if k <= n {
          assert Starved(Run(c, i, events[..n][..k]), i);
        }
      }
    }
  }

  lemma RenewsFront(c: Client, i: nat, events: seq<Event>)
    requires i < |c.world.entries| && events != []
    ensures var n := |events| - 1;
            EverRenews(c, i, events)
            <==> EverRenews(c, i, events[..n]) || Renews(Run(c, i, events[..n]).world, i, events[n])
  {
    hide Renews, Run;
    var n := |events| - 1;
    FrontIs(events);
    if EverRenews(c, i, events) && !Renews(Run(c, i, events[..n]).world, i, events[n]) {
      var k :| 0 <= k < |events| && Renews(Run(c, i, events[..k]).world, i, events[k]);
      assert Renews(Run(c, i, events[..n][..k]).world, i, events[..n][k]);
    }
    if EverRenews(c, i, events[..n]) {
      var k :| 0 <= k < n && Renews(Run(c, i, events[..n][..k]).world, i, events[..n][k]);
      assert Renews(Run(c, i, events[..k]).world, i, events[k]);
    }
  }

  // ----- and it happens -----

  /** n requests in a row that nothing answers. */
  function Silence(n: nat): (r: seq<Event>)
    ensures |r| == 2 * n
  {
    if n == 0 then [] else Silence(n - 1) + [PollDue, Lost(0.0, false)]
  }

  lemma RunTwoMore(c: Client, i: nat, events: seq<Event>, d: Event, e: Event)
    requires i < |c.world.entries|
    ensures |After(Run(c, i, events), i, d).world.entries| == |c.world.entries|
    ensures Run(c, i, events + [d, e]) == After(After(Run(c, i, events), i, d), i, e)
  {
    AfterKeepsSources(Run(c, i, events), i, d);
    var all := events + [d, e];
    assert all[..|all| - 1] == events + [d] && (events + [d])[..|events|] == events;
  }

  /** Each takes the newest cookie left. */
  lemma {:induction false} SilenceSpends(c: Client, i: nat, n: nat)
    requires i < |c.world.entries| && c.world.entries[i].hasAddresses && !c.pending
    requires c.security.Nts? && n <= |c.security.cookies|
    ensures Run(c, i, Silence(n))
            == c.(security := c.security.(cookies := c.security.cookies[..|c.security.cookies| - n]),
                  requests := c.requests + n)
  {
    if n > 0 {
      var events, before := Silence(n), Silence(n - 1);
      SilenceSpends(c, i, n - 1);
      RunTwoMore(c, i, before, PollDue, Lost(0.0, false));
      var held := c.security.cookies;
      assert held[..|held| - (n - 1)][..|held| - n] == held[..|held| - n];
    } else {
      assert c.security.cookies[..|c.security.cookies|] == c.security.cookies;
    }
  }

  /** From a store of any size, in as many lost polls, the last of which may be the eighth and drop the addresses: with
      the keys good until `rekeyAfter`, no turn of the loop up to then brings the source back. */
  lemma SpentUntilRekeyed(c: Client, i: nat, now: real, last: bool, events: seq<Event>)
    requires i < |c.world.entries| && c.world.entries[i].hasAddresses && !c.pending && c.world.alive
    requires c.security.Nts? && c.security.cookies != []
    requires c.world.entries[i].nts && c.world.entries[i].keyed && NoHandshake(c.world, i)
    requires forall k :: 0 <= k < |events| ==> !Kills(events[k])
    requires forall k :: 0 <= k < |events| && events[k].Work? && events[k].s.MaintainStep?
                         ==> events[k].s.now <= c.world.entries[i].rekeyAfter
    ensures var spent := Run(c, i, Silence(|c.security.cookies| - 1) + [PollDue, Lost(now, last)]);
            Starved(spent, i) && StarvedThroughout(spent, i, events) && Run(spent, i, events).requests == spent.requests
  {
    SpendsAll(c, i, now, last);
    hide Run, Starved, Renews, After;
    NoneRenews(Run(c, i, Silence(|c.security.cookies| - 1) + [PollDue, Lost(now, last)]), i, events);
  }

  lemma SpendsAll(c: Client, i: nat, now: real, last: bool)
    requires i < |c.world.entries| && c.world.entries[i].hasAddresses && !c.pending
    requires c.security.Nts? && c.security.cookies != []
    requires c.world.entries[i].nts && c.world.entries[i].keyed && NoHandshake(c.world, i)
    ensures var spent := Run(c, i, Silence(|c.security.cookies| - 1) + [PollDue, Lost(now, last)]);
            && Starved(spent, i) && spent.world.alive == c.world.alive
            && spent.world.entries[i].rekeyAfter == c.world.entries[i].rekeyAfter
  {
    var n := |c.security.cookies|;
    var one := c.(security := c.security.(cookies := c.security.cookies[..1]), requests := c.requests + (n - 1));
    SilenceSpends(c, i, n - 1);
    assert Run(c, i, Silence(n - 1)) == one;
    RunTwoMore(c, i, Silence(n - 1), PollDue, Lost(now, last));
    hide Run;
    assert After(one, i, PollDue).security.cookies == [];
  }

  lemma {:induction false} NoneRenews(c: Client, i: nat, events: seq<Event>)
    requires i < |c.world.entries| && Starved(c, i) && c.world.alive
    requires forall k :: 0 <= k < |events| ==> !Kills(events[k])
    requires forall k :: 0 <= k < |events| && events[k].Work? && events[k].s.MaintainStep?
                         ==> events[k].s.now <= c.world.entries[i].rekeyAfter
    ensures !EverRenews(c, i, events) && StarvedThroughout(c, i, events) && Run(c, i, events).requests == c.requests
  {
    StarvedExactly(c, i, events);
    if events != [] {
      NoneRenews(c, i, events[..|events| - 1]);
      StarvedExactly(c, i, events[..|events| - 1]);
      FrontAndLast(c, i, events);
    }
  }
}
