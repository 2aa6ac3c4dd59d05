/** A source's life cycle: the object the daemon polls, and what each operation does to it. */
module PolledSource {
  import opened Numbers
  import opened Wire
  import opened Extension
  import opened Timestamp
  import opened Packet
  import opened Sample
  import opened Filter
  import opened Authenticator
  import opened Reply
  import ConstantTime

  function Within(x: int, low: int, high: int): (r: int)
    ensures low <= high ==> low <= r <= high && (low <= x <= high ==> r == x)
    ensures low <= high && x < low ==> r == low
    ensures low <= high && x > high ==> r == high
  {
    if x < low then low else if x > high then high else x
  }

  class Source {
    const aead: Aead
    const filter: ClockFilter
    const minPoll: Small
    const maxPoll: Small
    var security: Security
    var reach: Byte
    var poll: Small
    var pending: Option<Pending>
    var stratum: Byte
    var leap: Leap
    var referenceId: Bytes
    var rootDelay: Span
    var rootDispersion: Span
    var rateLimited: bool

    /** Every poll's outcome, oldest first; requests sent; samples taken. */
    ghost var outcomes: seq<bool>
    ghost var prepared: nat
    ghost var samples: nat

    /** The poll interval in its bounds, the register telling the truth, no samples in an
        unreachable source, and at most one sample for every request. */
    ghost predicate Valid()
      reads this, filter, filter.stages
    {
      && filter.Valid()
      && 4 <= minPoll <= poll <= maxPoll <= 17
      && reach == ReachAfter(outcomes)
      && (reach == 0 ==> filter.State().samples == [])
      && samples + (if pending.Some? then 1 else 0) <= prepared
    }

    /** No more cookies than the target, as a handshake gives. */
    predicate Stocked()
      reads this
    {
      security.Cookies() <= COOKIE_TARGET
    }

    /** Everything but the pending request, the cookies and the histories. */
    ghost function Standing(): (Byte, Small, Byte, Leap, Bytes, Span, Span, bool)
      reads this
    {
      (reach, poll, stratum, leap, referenceId, rootDelay, rootDispersion, rateLimited)
    }

    /** Bounds from the configuration, brought inside what any server is asked to bear. */
    constructor (aead: Aead, security: Security, min: Small, max: Small)
      ensures Valid() && fresh(filter) && fresh(filter.stages)
      ensures this.security == security && pending.None? && outcomes == [] && prepared == 0 && samples == 0
      ensures minPoll == Within(min, 4, 17) && maxPoll == Within(max, minPoll, 17)
      ensures poll == minPoll && reach == 0 && stratum == 16 && leap == Leap.Unsynchronised && !rateLimited
    {
      this.aead, this.security := aead, security;
      filter := new ClockFilter();
      var low: Small := Within(min, POLL_FLOOR, POLL_CEILING);
      minPoll := low;
      maxPoll := Within(max, low, POLL_CEILING);
      reach, poll, pending, stratum, leap := 0, low, None, 16, Leap.Unsynchronised;
      referenceId, rootDelay, rootDispersion, rateLimited := [0, 0, 0, 0], 0.0, 0.0, false;
      outcomes, prepared, samples := [], 0, 0;
    }

    /** The daemon asks this before a request is built. */
    predicate CanPoll()
      reads this
    {
      security.CanPoll()
    }

    /** Build a request: spends the newest cookie and asks for enough to refill the store. */
    method Prepare(wall: NtpTime, transmit: NtpTime, uniqueId: Bytes, nonce: Bytes) returns (bytes: Option<Bytes>)
      requires Valid() && (CanPoll() || security.NtsPending?)
      modifies this
      ensures Valid() && Standing() == old(Standing()) && outcomes == old(outcomes) && samples == old(samples)
      ensures filter.State() == old(filter.State())
      ensures old(Stocked()) ==> Stocked()
      ensures bytes.Some? <==> old(CanPoll())
      ensures bytes.None? ==> pending == old(pending) && security == old(security) && prepared == old(prepared)
      ensures bytes.Some? ==> prepared == old(prepared) + 1
      ensures old(security).Unauthenticated? ==>
                security == old(security) && pending == Some(Pending(transmit, wall, None, None))
                && bytes == Some(Request(poll, transmit, []).Encode())
      ensures old(security).Nts? ==>
                var held := old(security).cookies;
                && security == old(security).(cookies := held[..|held| - 1])
                && pending == Some(Pending(transmit, wall, Some(uniqueId), Some(old(security).s2c)))
                && bytes == Some(NtsRequest(aead, old(security).c2s, nonce, poll, transmit, uniqueId, held))
    {
      match security
      case NtsPending =>
        return None;
      case Unauthenticated =>
        var out := EncodePacket(Request(poll, transmit, []));
        pending := Some(Pending(transmit, wall, None, None));
        prepared := prepared + 1;
        bytes := Some(out);
      case Nts(_, _, _) =>
        var out := PrepareNts(wall, transmit, uniqueId, nonce);
        bytes := Some(out);
    }

    /** The fields are encoded, and the seal over those bytes is appended as the last field. */
    method PrepareNts(wall: NtpTime, transmit: NtpTime, uniqueId: Bytes, nonce: Bytes) returns (bytes: Bytes)
      requires security.Nts? && security.cookies != []
      modifies this`security, this`pending, this`prepared
      ensures prepared == old(prepared) + 1
      ensures var held := old(security).cookies;
              && security == old(security).(cookies := held[..|held| - 1])
              && pending == Some(Pending(transmit, wall, Some(uniqueId), Some(old(security).s2c)))
              && bytes == NtsRequest(aead, old(security).c2s, nonce, poll, transmit, uniqueId, held)
    {
      hide SealAuthenticator, Packet.Encode, Field.Encode;
      var cookie, left := security.cookies[|security.cookies| - 1], security.cookies[..|security.cookies| - 1];
      var fields := FieldsToSend(uniqueId, cookie, Wanted(|left|));
      var prefix := EncodePacket(Request(poll, transmit, fields));
      var authenticator := Seal(aead, security.c2s, nonce, prefix, []);
      bytes := EncodeInto(authenticator, prefix);
      pending := Some(Pending(transmit, wall, Some(uniqueId), Some(security.s2c)));
      security := security.(cookies := left);
      prepared := prepared + 1;
    }

    method FieldsToSend(uniqueId: Bytes, cookie: Bytes, wanted: nat) returns (fields: seq<Field>)
      ensures fields == [Field(NTS_UNIQUE_IDENTIFIER, uniqueId), Field(NTS_COOKIE, cookie)]
                        + Placeholders(wanted, |cookie|)
    {
      fields := [Field(NTS_UNIQUE_IDENTIFIER, uniqueId), Field(NTS_COOKIE, cookie)];
      for i := 0 to wanted
        invariant fields == [Field(NTS_UNIQUE_IDENTIFIER, uniqueId), Field(NTS_COOKIE, cookie)]
                            + Placeholders(i, |cookie|)
      {
        fields := fields + [Field(NTS_COOKIE_PLACEHOLDER, Zeros(|cookie|))];
      }
    }

    /** Everything checked before the packet is believed, in the order that matters. */
    method Check(pending: Pending, bytes: Bytes) returns (r: Result<Credited, Rejected>)
      ensures r == Credible(aead, pending, bytes)
    {
      var decoded := Decode(bytes);
      if decoded.Err? {
        return Err(Malformed(decoded.error));
      }
      var packet := decoded.value;
      if packet.mode != Server || packet.version != VERSION {
        return Err(NotAReply);
      }
      if packet.originTimestamp != pending.transmit {
        return Err(WrongOrigin);
      }
      if pending.uniqueId.None? {
        return Ok(Credited(packet, []));
      }
      var found := packet.Find(NTS_UNIQUE_IDENTIFIER);
      if found.None? {
        return Err(WrongIdentifier);
      }
      var same := ConstantTime.Eq(packet.extensions[found.value].value, pending.uniqueId.value);
      if !same {
        return Err(WrongIdentifier);
      }
      if pending.s2c.None? {
        return Err(Rejected.NotAuthentic);
      }
      var cookies := Verify(aead, packet, bytes, pending.s2c.value);
      if cookies.None? {
        return Err(Rejected.NotAuthentic);
      }
      r := Ok(Credited(packet, cookies.value));
    }

    /** Take a reply. What is not credible changes nothing. What is credible restocks the cookies and
        settles the request, unless its measurement is unusable: then the request stays pending. */
    method Accept(bytes: Bytes, destination: NtpTime) returns (r: Result<Sample, Rejected>)
      requires Valid()
      modifies this
      ensures Valid() && (r.Ok? ==> reach % 2 == 1)
      ensures filter.State() == old(filter.State()) && prepared == old(prepared)
      ensures poll == old(poll) && rateLimited == old(rateLimited)
      ensures old(Stocked()) ==> Stocked()
      ensures old(pending).None? ==> r == Err(WrongOrigin)
      ensures old(pending).Some? && Credible(aead, old(pending).value, bytes).Err?
              ==> r == Err(Credible(aead, old(pending).value, bytes).error)
      ensures old(pending).None? || Credible(aead, old(pending).value, bytes).Err? ==>
                && pending == old(pending) && security == old(security) && Standing() == old(Standing())
                && outcomes == old(outcomes) && samples == old(samples)
      ensures old(pending).Some? && Credible(aead, old(pending).value, bytes).Ok? ==>
                var asked, got := old(pending).value, Credible(aead, old(pending).value, bytes).value;
                && r == Concluded(asked, got.packet, destination)
                && security == (if asked.uniqueId.Some? then Restocked(old(security), got.cookies) else old(security))
                && pending == (if r.Err? && r.error.Unusable? then old(pending) else None)
                && outcomes == old(outcomes) + (if r.Ok? || r.error == Rejected.Unsynchronised then [true] else [])
                && samples == old(samples) + (if r.Ok? then 1 else 0)
                && (r.Err? && r.error != Rejected.Unsynchronised ==> Standing() == old(Standing()))
                && (r == Err(Rejected.Unsynchronised) ==> stratum == got.packet.stratum && leap == got.packet.leap
                                                          && Figures() == old(Figures()))
                && (r.Ok? ==> Adopted(got.packet))
                && Explained(asked, got.packet, destination, r)
    {
      hide Credible, Concluded, Explained, Measurement, ReachAfter, Packet.IsKissOfDeath, Refilled;
      if pending.None? {
        return Err(WrongOrigin);
      }
      var asked := pending.value;
      var credited := Check(asked, bytes);
      if credited.Err? {
        return Err(credited.error);
      }
      if asked.uniqueId.Some? {
        if security.Nts? {
          RestockStaysInTarget(security.cookies, credited.value.cookies);
        }
        Restock(credited.value.cookies);
      }
      r := Settle(asked, credited.value.packet, destination);
      ConcludedIsExplained(asked, credited.value.packet, destination);
    }

    /** The server's own numbers are those of p, its 16.16 fixed point read as seconds. */
    predicate Adopted(p: Packet)
      reads this
    {
      && stratum == p.stratum && leap == p.leap && referenceId == p.referenceId
      && rootDelay == p.rootDelay as real / 65536.0 && rootDispersion == p.rootDispersion as real / 65536.0
    }

    /** What only a synchronised server can change. */
    ghost function Figures(): (Bytes, Span, Span)
      reads this
    {
      (referenceId, rootDelay, rootDispersion)
    }

    /** A credible packet is a kiss, an unsynchronised server, an unusable measurement, or a sample. */
    method Settle(asked: Pending, packet: Packet, destination: NtpTime) returns (r: Result<Sample, Rejected>)
      requires Valid() && pending == Some(asked)
      modifies this
      ensures Valid() && (r.Ok? ==> reach % 2 == 1)
      ensures filter.State() == old(filter.State()) && prepared == old(prepared) && security == old(security)
      ensures poll == old(poll) && rateLimited == old(rateLimited)
      ensures r == Concluded(asked, packet, destination)
      ensures pending == (if r.Err? && r.error.Unusable? then old(pending) else None)
      ensures outcomes == old(outcomes) + (if r.Ok? || r.error == Rejected.Unsynchronised then [true] else [])
      ensures samples == old(samples) + (if r.Ok? then 1 else 0)
      ensures r.Err? && r.error != Rejected.Unsynchronised ==> Standing() == old(Standing())
      ensures r == Err(Rejected.Unsynchronised) ==> stratum == packet.stratum && leap == packet.leap && Figures() == old(Figures())
      ensures r.Ok? ==> Adopted(packet)
    {
      hide Measurement, ReachAfter, Packet.IsKissOfDeath, ShortSeconds, Adopted, Shifted;
      if packet.IsKissOfDeath() {
        pending := None;
        return Err(Kiss(packet.referenceId));
      }
      if packet.leap == Leap.Unsynchronised || packet.stratum >= 16 {
        pending := None;
        RecordReply();
        stratum, leap := packet.stratum, packet.leap;
        return Err(Rejected.Unsynchronised);
      }
      var measured := Measurement(asked, packet, destination);
      if measured.Err? {
        return Err(Unusable(measured.error));
      }
      pending := None;
      RecordReply();
      samples := samples + 1;
      Adopt(packet);
      r := Ok(measured.value);
    }

    method Adopt(p: Packet)
      modifies this`stratum, this`leap, this`referenceId, this`rootDelay, this`rootDispersion
      ensures Adopted(p)
    {
      stratum, leap, referenceId := p.stratum, p.leap, p.referenceId;
      rootDelay, rootDispersion := ShortSeconds(p.rootDelay), ShortSeconds(p.rootDispersion);
    }

    method Restock(fresh': seq<Bytes>)
      modifies this`security
      ensures security == Restocked(old(security), fresh')
    {
      if security.Nts? {
        var held := security.cookies;
        for i := 0 to |fresh'|
          invariant held == Refilled(security.cookies, fresh'[..i])
        {
          assert fresh'[..i + 1] == fresh'[..i] + [fresh'[i]];
          if |held| < COOKIE_TARGET {
            held := held + [fresh'[i]];
          }
        }
        assert fresh'[..|fresh'|] == fresh';
        security := security.(cookies := held);
      }
    }

    method RecordReply()
      modifies this`reach, this`outcomes
      ensures reach == Shifted(old(reach), true) && reach % 2 == 1 && outcomes == old(outcomes) + [true]
      ensures old(reach == ReachAfter(outcomes)) ==> reach == ReachAfter(outcomes)
    {
      reach := (reach * 2 + 1) % 256;
      outcomes := outcomes + [true];
      assert outcomes[..|outcomes| - 1] == old(outcomes);
    }

    /** A poll went unanswered; the eighth in a row empties the filter. */
    method RecordLoss()
      requires Valid()
      modifies this, filter, filter.stages
      ensures Valid() && outcomes == old(outcomes) + [false] && pending.None?
      ensures security == old(security) && poll == old(poll) && prepared == old(prepared) && samples == old(samples)
      ensures (stratum, leap, referenceId, rootDelay, rootDispersion, rateLimited)
              == old((stratum, leap, referenceId, rootDelay, rootDispersion, rateLimited))
      ensures reach == 0 ==> filter.State() == EMPTY
      ensures reach != 0 ==> filter.State() == old(filter.State())
    {
      reach := reach * 2 % 256;
      outcomes := outcomes + [false];
      assert outcomes[..|outcomes| - 1] == old(outcomes);
      pending := None;
      if reach == 0 {
        filter.Reset();
      }
    }

    /** A reply as the main loop takes it: a sample goes into the filter, a kiss is obeyed, and what is not credible
        changes nothing. `accepted`: selection should run again; `updated`: on a measurement not used before. */
    method TakeReply(bytes: Bytes, destination: NtpTime, wall: real, root: real -> real)
      returns (accepted: bool, updated: bool)
      requires Valid()
      modifies this, filter, filter.stages
      ensures Valid() && prepared == old(prepared)
      ensures samples == old(samples) || (samples == old(samples) + 1 && old(pending).Some? && pending.None?)
      ensures old(Stocked()) ==> Stocked()
      ensures old(pending).None? || Credible(aead, old(pending).value, bytes).Err? ==>
                && !accepted && !updated && pending == old(pending) && security == old(security)
                && Standing() == old(Standing()) && filter.State() == old(filter.State())
                && outcomes == old(outcomes) && samples == old(samples)
      ensures old(pending).Some? && Credible(aead, old(pending).value, bytes).Ok? ==>
                var asked, got := old(pending).value, Credible(aead, old(pending).value, bytes).value;
                var r := Concluded(asked, got.packet, destination);
                var restocked := if asked.uniqueId.Some? then Restocked(old(security), got.cookies) else old(security);
                && accepted == r.Ok?
                && (if r.Ok? then (filter.State(), updated) == Judged(old(filter.State()), r.value, wall, root)
                    else filter.State() == old(filter.State()) && !updated)
                && pending == (if r.Err? && r.error.Unusable? then old(pending) else None)
                && outcomes == old(outcomes) + (if r.Ok? || r.error == Rejected.Unsynchronised then [true] else [])
                && samples == old(samples) + (if r.Ok? then 1 else 0)
                && (r.Ok? ==> Adopted(got.packet))
                && (r == Err(Rejected.Unsynchronised) ==> stratum == got.packet.stratum && leap == got.packet.leap)
                && (!r.Ok? ==> Figures() == old(Figures()))
                && Explained(asked, got.packet, destination, r)
                && security == (if r == Err(Kiss(NTSN)) then NtsPending else restocked)
                && poll == (if r.Err? && r.error.Kiss? && r.error.code != NTSN then maxPoll else old(poll))
                && rateLimited == (old(rateLimited) || r == Err(Kiss(RATE)))
    {
      hide Credible, Concluded, Explained, Inserted, ReachAfter, Restocked, Judged, Adopted;
      if pending.Some? {
        RefusalsAreNoKiss(aead, pending.value, bytes);
      }
      var r := Accept(bytes, destination);
      accepted, updated := r.Ok?, false;
      match r
      case Ok(sample) =>
        updated := Record(sample, wall, root);
      case Err(Kiss(code)) =>
        if code == RATE {
          BackOff();
        } else if code == NTSN {
          DropKeys();
        } else {
          poll := maxPoll;
        }
      case Err(_) =>
    }

    /** The register after a sample, and whether its best is one not used before. */
    ghost function Judged(r: Register, sample: Sample, wall: real, root: real -> real): (Register, bool) {
      var (r', outcome) := Inserted(r, sample, wall, root);
      (r', outcome.Update?)
    }

    method Record(sample: Sample, wall: real, root: real -> real) returns (updated: bool)
      requires Valid() && reach != 0
      modifies filter, filter.stages
      ensures Valid() && (filter.State(), updated) == Judged(old(filter.State()), sample, wall, root)
    {
      var outcome := filter.Insert(sample, wall, root);
      updated := outcome.Update?;
    }

    /** The server has refused our cookies: the keys are of no more use. */
    method DropKeys()
      requires Valid()
      modifies this`security
      ensures Valid() && Stocked() && security == NtsPending
    {
      security := NtsPending;
    }

    /** Longer when the clock is calm, shorter when it moves; never once rate limited. */
    method AdaptPoll(systemOffset: real, systemJitter: real)
      requires Valid()
      modifies this`poll
      ensures Valid()
      ensures rateLimited ==> poll == old(poll)
      ensures !rateLimited ==>
                if Abs(systemOffset) > 4.0 * Max(systemJitter, 0.000000001)
                then poll == (if old(poll) == minPoll then minPoll else old(poll) - 1)
                else poll == (if old(poll) == maxPoll then maxPoll else old(poll) + 1)
    {
      if rateLimited {
        return;
      }
      var noisy := Abs(systemOffset) > 4.0 * Max(systemJitter, 0.000000001);
      if noisy {
        poll := if poll - 1 < minPoll then minPoll else poll - 1;
      } else {
        poll := if poll + 1 > maxPoll then maxPoll else poll + 1;
      }
    }

    /** Obey a RATE kiss. */
    method BackOff()
      requires Valid()
      modifies this`poll, this`rateLimited
      ensures Valid() && rateLimited && poll == maxPoll
    {
      rateLimited := true;
      poll := maxPoll;
    }
  }
}
