/** What a source asks, and what makes a reply to it credible. */
module Reply {
  import opened Numbers
  import opened Wire
  import opened Extension
  import opened Timestamp
  import opened Packet
  import opened Sample
  import opened Filter
  import opened Authenticator
  import KeyExchange

  const POLL_FLOOR: int := 4
  const POLL_CEILING: int := 17
  const UNIQUE_ID_LEN: nat := 32
  const MAX_DELAY: real := 1.0
  const LOCAL_PRECISION: int := -20
  const COOKIE_TARGET: nat := KeyExchange.COOKIE_TARGET

  const RATE: Bytes := [82, 65, 84, 69]
  const NTSN: Bytes := [78, 84, 83, 78]

  /** The two kisses with a meaning of their own, by name. */
  lemma KissNames()
    ensures RATE == ['R' as int, 'A' as int, 'T' as int, 'E' as int]
    ensures NTSN == ['N' as int, 'T' as int, 'S' as int, 'N' as int]
  {
  }

  datatype Pending = Pending(transmit: NtpTime, origin: NtpTime, uniqueId: Option<Bytes>, s2c: Option<Bytes>)

  datatype Security =
    | Nts(c2s: Bytes, s2c: Bytes, cookies: seq<Bytes>)
    | NtsPending
    | Unauthenticated
  {
    function Cookies(): nat {
      if Nts? then |cookies| else 0
    }

    predicate CanPoll() {
      !NtsPending? && !(Nts? && cookies == [])
    }
  }

  datatype Rejected =
    | Malformed(e: WireError)
    | NotAReply
    | WrongOrigin
    | WrongIdentifier
    | NotAuthentic
    | Unsynchronised
    | Kiss(code: Bytes)
    | Unusable(reason: SampleError)

  // ----- the request -----

  /** How many replacements to ask for beside the cookie spent. */
  function Wanted(left: nat): nat {
    if COOKIE_TARGET > left + 1 then COOKIE_TARGET - (left + 1) else 0
  }

  function Placeholders(n: nat, len: nat): (r: seq<Field>)
    ensures |r| == n && forall i :: 0 <= i < n ==> r[i] == Field(NTS_COOKIE_PLACEHOLDER, Zeros(len))
  {
    seq(n, _ => Field(NTS_COOKIE_PLACEHOLDER, Zeros(len)))
  }

  function Request(poll: Small, transmit: NtpTime, extensions: seq<Field>): Packet {
    Packet(NoWarning, VERSION, Client, 0, poll, 0, 0, 0, [0, 0, 0, 0], 0, 0, 0, transmit, extensions)
  }

  function NtsFields(uniqueId: Bytes, cookie: Bytes, left: nat): seq<Field> {
    [Field(NTS_UNIQUE_IDENTIFIER, uniqueId), Field(NTS_COOKIE, cookie)] + Placeholders(Wanted(left), |cookie|)
  }

  /** The datagram sent: the packet as encoded so far, then its seal. */
  function NtsRequest(aead: Aead, c2s: Bytes, nonce: Bytes, poll: Small, transmit: NtpTime, uniqueId: Bytes,
                      held: seq<Bytes>): Bytes
    requires held != []
  {
    var prefix := Request(poll, transmit, NtsFields(uniqueId, held[|held| - 1], |held| - 1)).Encode();
    prefix + SealAuthenticator(aead, c2s, nonce, prefix, []).Encode()
  }

  // ----- judging a reply -----

  datatype Credited = Credited(packet: Packet, cookies: seq<Bytes>)

  /** Everything that is checked before a word of the packet is believed. */
  function Credible(aead: Aead, pending: Pending, bytes: Bytes): Result<Credited, Rejected> {
    match Decode(bytes)
    case Err(e) => Err(Malformed(e))
    case Ok(p) =>
      if p.mode != Server || p.version != VERSION then Err(NotAReply)
      else if p.originTimestamp != pending.transmit then Err(WrongOrigin)
      else if pending.uniqueId.None? then Ok(Credited(p, []))
      else
        match p.Find(NTS_UNIQUE_IDENTIFIER)
        case None => Err(WrongIdentifier)
        case Some(k) =>
          if p.extensions[k].value != pending.uniqueId.value then Err(WrongIdentifier)
          else if pending.s2c.None? then Err(Rejected.NotAuthentic)
          else
            match Verified(aead, p, bytes, pending.s2c.value)
            case None => Err(Rejected.NotAuthentic)
            case Some(cookies) => Ok(Credited(p, cookies))
  }

  /** A kiss is only ever read out of a credible packet. */
  lemma RefusalsAreNoKiss(aead: Aead, pending: Pending, bytes: Bytes)
    ensures Credible(aead, pending, bytes).Err?
            ==> !Credible(aead, pending, bytes).error.Kiss? && !Credible(aead, pending, bytes).error.Unusable?
  {
  }

  /** When the reply arrived, in Unix seconds, on the timeline of the origin timestamp. */
  function ArrivalSeconds(destination: NtpTime, origin: NtpTime): real {
    var (secs, nanos) := ToUnixNear(origin, 0);
    secs as real + nanos as real / 1000000000.0 + Seconds(WrappingSub(destination, origin))
  }

  function Measurement(pending: Pending, p: Packet, destination: NtpTime): Result<Sample, SampleError> {
    Reduce(Exchange(pending.origin, p.receiveTimestamp, p.transmitTimestamp, destination),
           LOCAL_PRECISION, p.precision, MAX_DELAY, ArrivalSeconds(destination, pending.origin))
  }

  /** NTP's 16.16 fixed point, in seconds. */
  function ShortSeconds(n: U32): Span {
    n as real / 65536.0
  }

  /** What a credible packet comes to: a kiss, an unsynchronised server, an unusable measurement, or a sample. */
  function Concluded(pending: Pending, p: Packet, destination: NtpTime): Result<Sample, Rejected> {
    if p.IsKissOfDeath() then Err(Kiss(p.referenceId))
    else if p.leap == Leap.Unsynchronised || p.stratum >= 16 then Err(Rejected.Unsynchronised)
    else
      match Measurement(pending, p, destination)
      case Err(e) => Err(Unusable(e))
      case Ok(sample) => Ok(sample)
  }

  /** The four clock readings of the exchange, on times that never wrap: ours as noted, the server's as the packet says. */
  ghost predicate Reads(t: TrueTimes, pending: Pending, p: Packet, destination: NtpTime) {
    && t.Near()
    && pending.origin == t.t1 % 0x1_0000_0000_0000_0000 && p.receiveTimestamp == t.t2 % 0x1_0000_0000_0000_0000
    && p.transmitTimestamp == t.t3 % 0x1_0000_0000_0000_0000 && destination == t.t4 % 0x1_0000_0000_0000_0000
  }

  /** What r says of a packet, in the packet's own fields: a kiss is stratum 0 with four capitals for a name; of the rest,
      leap 3 and stratum 16 are unsynchronised; and of the rest, the exchange is a sample exactly when
      neither clock ran backwards in it and the time on the path is within a second. */
  ghost predicate Explained(pending: Pending, p: Packet, destination: NtpTime, r: Result<Sample, Rejected>) {
    var kiss := p.stratum == 0 && forall i :: 0 <= i < |p.referenceId| ==> 'A' as int <= p.referenceId[i] <= 'Z' as int;
    && (r.Err? && r.error.Kiss? <==> kiss)
    && (kiss ==> r == Err(Kiss(p.referenceId)))
    && (r == Err(Rejected.Unsynchronised) <==> !kiss && (p.leap.Unsynchronised? || p.stratum >= 16))
    && (r.Ok? ==> !kiss && !p.leap.Unsynchronised? && p.stratum < 16)
    && forall t: TrueTimes :: Reads(t, pending, p, destination) && !kiss && !p.leap.Unsynchronised? && p.stratum < 16 ==>
         Measures(t, pending, p, destination, r)
  }

  /** The measurement, or the reason it is unusable, on times that never wrap. */
  ghost predicate Measures(t: TrueTimes, pending: Pending, p: Packet, destination: NtpTime, r: Result<Sample, Rejected>) {
    && (r.Ok? <==> t.t1 <= t.t4 && t.t2 <= t.t3 && t.OnPath() <= 1.0)
    && (r.Ok? ==> && r.value.offset == t.Offset() && r.value.delay == t.Delay()
                  && r.value.dispersion == Log2Seconds(-20) + Log2Seconds(p.precision) + 0.000015 * t.RoundTrip()
                  && r.value.at == ArrivalSeconds(destination, pending.origin))
    && (t.t4 < t.t1 ==> r == Err(Unusable(LocalWentBackwards)))
    && (t.t1 <= t.t4 && t.t3 < t.t2 ==> r == Err(Unusable(ServerWentBackwards)))
    && (t.t1 <= t.t4 && t.t2 <= t.t3 && t.OnPath() > 1.0 ==> r == Err(Unusable(TooFar(t.OnPath()))))
  }

  lemma ConcludedIsExplained(pending: Pending, p: Packet, destination: NtpTime)
    ensures Explained(pending, p, destination, Concluded(pending, p, destination))
  {
    hide Reduce, ArrivalSeconds, Log2Seconds;
    forall t: TrueTimes | Reads(t, pending, p, destination) && !p.IsKissOfDeath() && !p.leap.Unsynchronised? && p.stratum < 16
      ensures Measures(t, pending, p, destination, Concluded(pending, p, destination))
    {
      ReduceExact(t, LOCAL_PRECISION, p.precision, MAX_DELAY, ArrivalSeconds(destination, pending.origin));
    }
  }

  /** And the time a sample is stamped with is that of its arrival, in Unix seconds, within 68 years of 1970: the
      time the request left, to the nanosecond below, and the time since. */
  lemma ArrivalIsUnixTime(s: int, n: nat, destination: NtpTime)
    requires -0x8000_0000 <= s < 0x8000_0000 && n < 1_000_000_000
    ensures var origin := FromUnix(s, n);
            var whole := if n % 1_953_125 == 0 then n else n - 1;
            ArrivalSeconds(destination, origin)
            == s as real + whole as real / 1000000000.0 + WrappingSub(destination, origin) as real / 4294967296.0
  {
    UnixRoundTrip(s, n, 0);
  }

  /** Fresh cookies fill the store up to its target and the rest are dropped. */
  function Refilled(held: seq<Bytes>, fresh': seq<Bytes>): seq<Bytes> {
    var room := if |held| < COOKIE_TARGET then COOKIE_TARGET - |held| else 0;
    held + if |fresh'| <= room then fresh' else fresh'[..room]
  }

  function Restocked(s: Security, fresh': seq<Bytes>): Security {
    if s.Nts? then s.(cookies := Refilled(s.cookies, fresh')) else s
  }

  // ----- the reachability register -----

  /** The register after a history of outcomes, oldest first: an eight-bit shift register. */
  function Shifted(reach: Byte, replied: bool): Byte {
    (reach * 2 + if replied then 1 else 0) % 256
  }

  function ReachAfter(outcomes: seq<bool>): Byte {
    if outcomes == [] then 0
    else Shifted(ReachAfter(outcomes[..|outcomes| - 1]), outcomes[|outcomes| - 1])
  }

  /** Outcomes read as a binary number, the newest in the low bit. */
  function Value(bits: seq<bool>): nat {
    if bits == [] then 0
    else 2 * Value(bits[..|bits| - 1]) + if bits[|bits| - 1] then 1 else 0
  }

  function LastEight(outcomes: seq<bool>): seq<bool> {
    if |outcomes| <= 8 then outcomes else outcomes[|outcomes| - 8..]
  }

  lemma {:induction false} ValueSplit(first: bool, rest: seq<bool>)
    ensures Value([first] + rest) == (if first then TwoTo(|rest|) else 0) + Value(rest)
    ensures Value(rest) < TwoTo(|rest|)
  {
    if rest == [] {
      assert [first] + rest == [first] && [first][..0] == [];
    } else {
      var n := |rest| - 1;
      ValueSplit(first, rest[..n]);
      assert ([first] + rest)[..|rest|] == [first] + rest[..n];
    }
  }

  /** The register is exactly the last eight outcomes, and is zero exactly when all of them were losses. */
  lemma {:induction false} ReachIsLastEight(outcomes: seq<bool>)
    ensures ReachAfter(outcomes) == Value(LastEight(outcomes))
    ensures ReachAfter(outcomes) == 0 <==> forall i :: 0 <= i < |LastEight(outcomes)| ==> !LastEight(outcomes)[i]
  {
    if outcomes != [] {
      hide Shifted, Value;
      var n := |outcomes| - 1;
      ReachIsLastEight(outcomes[..n]);
      var before := LastEight(outcomes[..n]);
      LastEightOfNext(outcomes[..n], outcomes[n]);
      assert outcomes == outcomes[..n] + [outcomes[n]];
      ShiftKeepsEight(before, outcomes[n], ReachAfter(outcomes[..n]));
    }
    ZeroValue(LastEight(outcomes));
  }

  lemma LastEightOfNext(before: seq<bool>, next: bool)
    ensures LastEight(before + [next]) == LastEight(LastEight(before) + [next])
  {
    if |before| > 8 {
      assert LastEight(before + [next]) == before[|before| - 7..] + [next];
      assert LastEight(LastEight(before) + [next]) == LastEight(before)[1..] + [next];
    }
  }

  lemma ShiftKeepsEight(before: seq<bool>, replied: bool, reach: Byte)
    requires |before| <= 8 && reach == Value(before)
    ensures Shifted(reach, replied) == Value(LastEight(before + [replied]))
  {
    hide Value;
    ValueOfNext(before, replied);
    if |before| < 8 {
      ShortValue(before);
    } else {
      assert LastEight(before + [replied]) == before[1..] + [replied];
      ValueOfNext(before[1..], replied);
      assert before == [before[0]] + before[1..];
      EighthBit(before[0], before[1..]);
    }
  }

  lemma ValueOfNext(bits: seq<bool>, next: bool)
    ensures Value(bits + [next]) == 2 * Value(bits) + if next then 1 else 0
  {
    assert (bits + [next])[..|bits|] == bits;
  }

  lemma EighthBit(first: bool, rest: seq<bool>)
    requires |rest| == 7
    ensures Value([first] + rest) == (if first then 128 else 0) + Value(rest) && Value(rest) < 128
  {
    ValueSplit(first, rest);
    assert TwoTo(3) == 8 && TwoTo(6) == 64;
  }

  lemma ShortValue(bits: seq<bool>)
    requires |bits| < 8
    ensures Value(bits) < 128
  {
    ValueSplit(false, bits);
    TwoToGrows(|bits|, 7);
    assert TwoTo(3) == 8 && TwoTo(6) == 64;
  }

  lemma {:induction false} ZeroValue(bits: seq<bool>)
    ensures Value(bits) == 0 <==> forall i :: 0 <= i < |bits| ==> !bits[i]
  {
    if bits != [] {
      ZeroValue(bits[..|bits| - 1]);
    }
  }

  // ----- what credibility rests on -----

  /** The bytes received hold, right after the fields before p's first authenticator, that field, and it opens. */
  ghost predicate SealedIn(aead: Aead, key: Bytes, bytes: Bytes, p: Packet, cookies: seq<Bytes>) {
    && p.Find(NTS_AUTHENTICATOR).Some? && |p.referenceId| == 4
    && var k := p.Find(NTS_AUTHENTICATOR).value;
    && var at, len := |p.Header() + EncodeFields(p.extensions[..k])|, |p.extensions[k].value|;
    && at + 4 + len <= |bytes|
    && bytes[..at] == p.Header() + EncodeFields(p.extensions[..k])
    && bytes[at..at + 2] == BigEndian(NTS_AUTHENTICATOR, 2)
    && bytes[at + 4..at + 4 + len] == p.extensions[k].value
    && OpensAt(aead, key, bytes, at, len, cookies)
  }

  /** The nonce and the ciphertext read out of the field at `at`, with `len` bytes of value, open with all
      the bytes before the field as associated data, and give these cookies. */
  ghost predicate OpensAt(aead: Aead, key: Bytes, bytes: Bytes, at: nat, len: nat, cookies: seq<Bytes>)
    requires at + 4 + len <= |bytes|
  {
    && 4 <= len
    && Number(bytes[at + 4..at + 6]) == NONCE_LEN
    && var n := Number(bytes[at + 6..at + 8]);
    && 20 + RoundUpToFour(n) <= len
    && var plaintext := aead.open(key, bytes[at + 8..at + 24], bytes[..at], bytes[at + 24..at + 24 + n]);
    && plaintext.Some? && cookies == CookiesIn(plaintext.value)
  }

  /** What is believed, exactly: a reply of our version that echoes our nonce and, under NTS, carries our identifier
      and a seal that opens, under our key, over the very bytes received before it. */
  lemma CredibleMeans(aead: Aead, pending: Pending, bytes: Bytes, p: Packet, cookies: seq<Bytes>)
    ensures Credible(aead, pending, bytes) == Ok(Credited(p, cookies))
            <==> && Decode(bytes) == Ok(p) && p.mode == Server && p.version == VERSION
                 && p.originTimestamp == pending.transmit
                 && if pending.uniqueId.None? then cookies == []
                    else
                      && p.Find(NTS_UNIQUE_IDENTIFIER).Some?
                      && p.extensions[p.Find(NTS_UNIQUE_IDENTIFIER).value].value == pending.uniqueId.value
                      && pending.s2c.Some? && SealedIn(aead, pending.s2c.value, bytes, p, cookies)
  {
    hide Decode, Verified, SealedIn, Packet.Header, Packet.Find;
    if pending.uniqueId.Some? && pending.s2c.Some? && Decode(bytes) == Ok(p) {
      VerifiedMeans(aead, pending.s2c.value, bytes, p, cookies);
    }
  }

  lemma VerifiedMeans(aead: Aead, key: Bytes, bytes: Bytes, p: Packet, cookies: seq<Bytes>)
    requires Decode(bytes) == Ok(p)
    ensures Verified(aead, p, bytes, key) == Some(cookies) <==> SealedIn(aead, key, bytes, p, cookies)
  {
    hide Decode, BigEndian, CookiesIn, FirstOf, EncodeFields, EncodedLens, Packet.Header, OpenAuthenticator, OpensAt;
    if p.Find(NTS_AUTHENTICATOR).Some? {
      var k := p.Find(NTS_AUTHENTICATOR).value;
      var at, value := HEADER_LEN + EncodedLens(p.extensions[..k]), p.extensions[k].value;
      OffsetIsExact(bytes, k);
      FieldsAreLong(p.extensions[..k]);
      assert at == |bytes[..at]| == |p.Header() + EncodeFields(p.extensions[..k])|;
      OpenedMeans(aead, key, bytes, at, value, cookies);
    }
  }

  lemma OpenedMeans(aead: Aead, key: Bytes, bytes: Bytes, at: nat, value: Bytes, cookies: seq<Bytes>)
    requires at + 4 + |value| <= |bytes| && bytes[at + 4..at + 4 + |value|] == value
    ensures OpensAt(aead, key, bytes, at, |value|, cookies)
            <==> var plain := OpenAuthenticator(aead, key, bytes, at, value);
                 plain.Ok? && CookiesIn(plain.value) == cookies
  {
    hide Number, CookiesIn;
    if |value| >= 4 {
      SliceAt(bytes, at + 4, value, 0, 2);
      SliceAt(bytes, at + 4, value, 2, 4);
      var n := Number(value[2..4]);
      if 20 + RoundUpToFour(n) <= |value| {
        SliceAt(bytes, at + 4, value, 4, 20);
        SliceAt(bytes, at + 4, value, 20, 20 + n);
      }
    }
  }

  lemma SliceAt(bytes: Bytes, at: nat, value: Bytes, i: nat, j: nat)
    requires at + |value| <= |bytes| && bytes[at..at + |value|] == value && i <= j <= |value|
    ensures value[i..j] == bytes[at + i..at + j]
  {
    forall k | 0 <= k < j - i
      ensures value[i..j][k] == bytes[at + i..at + j][k]
    {
      assert value[i + k] == bytes[at..at + |value|][i + k];
    }
  }

  /** A server that answers the request it was sent is believed: it echoes the nonce and the identifier
      and seals its reply under the key the request named. */
  lemma GenuineReplyIsCredible(aead: Aead, pending: Pending, nonce: Bytes, p: Packet, plaintext: Bytes, k: nat)
    requires aead.Lawful() && |nonce| == NONCE_LEN
    requires pending.uniqueId.Some? && |pending.uniqueId.value| == UNIQUE_ID_LEN && pending.s2c.Some?
    requires p.WellFormed() && AllFit(p.extensions) && p.Find(NTS_AUTHENTICATOR).None?
    requires p.mode == Server && p.version == VERSION && p.originTimestamp == pending.transmit
    requires p.Find(NTS_UNIQUE_IDENTIFIER) == Some(k) && p.extensions[k].value == pending.uniqueId.value
    requires var ct := aead.seal(pending.s2c.value, nonce, p.Encode(), plaintext);
             0 < |ct| < 0x1_0000
             && |p.Encode() + Field(NTS_AUTHENTICATOR, SealValue(nonce, ct)).Encode()| <= MAX_PACKET
    ensures var auth := SealAuthenticator(aead, pending.s2c.value, nonce, p.Encode(), plaintext);
            var bytes := p.Encode() + auth.Encode();
            Credible(aead, pending, bytes)
            == Ok(Credited(p.(extensions := Padded(p.extensions) + [auth.Padded()]), CookiesIn(plaintext)))
  {
    hide Decode, Verified, Packet.Encode, Padded, Field.Encode, CookiesIn, SealValue, AllFit;
    GenuineReplyVerifies(aead, pending.s2c.value, nonce, p, plaintext);
    var auth := SealAuthenticator(aead, pending.s2c.value, nonce, p.Encode(), plaintext);
    PaddedEncodesAlike(p.extensions);
    FirstOfPadded(p.extensions, Padded(p.extensions) + [auth.Padded()], NTS_UNIQUE_IDENTIFIER, k);
    IdentifierNeedsNoPadding(p.extensions[k]);
  }

  lemma FirstOfPadded(fields: seq<Field>, padded: seq<Field>, fieldType: nat, k: nat)
    requires FirstOf(fields, fieldType) == Some(k) && |padded| >= |fields|
    requires forall i :: 0 <= i < |fields| ==> padded[i].fieldType == fields[i].fieldType
    ensures FirstOf(padded, fieldType) == Some(k)
  {
    hide FirstOf;
    assert padded[k].fieldType == fieldType;
    var k' := FirstOf(padded, fieldType);
  }

  lemma IdentifierNeedsNoPadding(f: Field)
    requires |f.value| == UNIQUE_ID_LEN
    ensures f.Padded().value == f.value
  {
  }

  // ----- the cookie store -----

  function IsCookieOrPlaceholder(): Field -> bool {
    (f: Field) => f.fieldType == NTS_COOKIE || f.fieldType == NTS_COOKIE_PLACEHOLDER
  }

  lemma {:induction false} AllPlaceholdersCount(fields: seq<Field>)
    requires forall i :: 0 <= i < |fields| ==> fields[i].fieldType == NTS_COOKIE_PLACEHOLDER
    ensures CountIf(fields, IsCookieOrPlaceholder()) == |fields|
  {
    if fields != [] {
      AllPlaceholdersCount(fields[..|fields| - 1]);
    }
  }

  /** A store within its target stays within it, keeps what it held, and takes the fresh ones in order. */
  lemma RestockStaysInTarget(held: seq<Bytes>, fresh': seq<Bytes>)
    ensures held <= Refilled(held, fresh') <= held + fresh'
    ensures |held| <= COOKIE_TARGET ==>
              |Refilled(held, fresh')| == (if |held| + |fresh'| < COOKIE_TARGET then |held| + |fresh'| else COOKIE_TARGET)
    ensures |held| >= COOKIE_TARGET ==> Refilled(held, fresh') == held
  {
  }

  /** Only a source with keys is restocked, and nothing of it changes but the store: what it
      held stays in front, and fresh cookies follow in order until there are eight. */
  lemma RestockedInNumbers(s: Security, fresh': seq<Bytes>)
    ensures !s.Nts? ==> Restocked(s, fresh') == s
    ensures s.Nts? ==> Restocked(s, fresh').Nts? && Restocked(s, fresh').c2s == s.c2s && Restocked(s, fresh').s2c == s.s2c
    ensures s.Nts? && |s.cookies| + |fresh'| <= 8 ==> Restocked(s, fresh').cookies == s.cookies + fresh'
    ensures s.Nts? && |s.cookies| <= 8 < |s.cookies| + |fresh'|
            ==> Restocked(s, fresh').cookies == s.cookies + fresh'[..8 - |s.cookies|]
    ensures s.Nts? && |s.cookies| >= 8 ==> Restocked(s, fresh') == s
  {
  }

  /** The request tells the server nothing but the interval and the nonce: 35 for leap 0, version 4
      and client, the interval, and zeros up to the nonce; the fields, if any, follow. */
  lemma RequestTellsNothing(poll: Small, transmit: NtpTime, fields: seq<Field>)
    ensures var bytes := Request(poll, transmit, fields).Encode();
            && |bytes| == 48 + |EncodeFields(fields)|
            && bytes[0] == 35 && bytes[2] == (if poll < 0 then poll + 256 else poll)
            && (forall i :: 0 < i < 40 && i != 2 ==> bytes[i] == 0)
            && bytes[40..48] == BigEndian(transmit, 8) && bytes[48..] == EncodeFields(fields)
  {
    hide BigEndian, EncodeFields;
    ZeroDigits(4);
    ZeroDigits(8);
    var p := Request(poll, transmit, fields);
    HeaderSlices(p, EncodeFields(fields));
    var b := p.Encode();
    assert b == p.Header() + EncodeFields(fields);
    forall i | 0 < i < 40 && i != 2
      ensures b[i] == 0
    {
      ZeroAt(b, i);
    }
  }

  lemma ZeroAt(b: Bytes, i: nat)
    requires |b| >= 48 && b[1] == 0 && b[3] == 0 && 0 < i < 40 && i != 2
    requires b[4..8] == b[8..12] == b[12..16] == Zeros(4) && b[16..24] == b[24..32] == b[32..40] == Zeros(8)
    ensures b[i] == 0
  {
    if 4 <= i < 8 { assert b[i] == b[4..8][i - 4]; }
    else if 8 <= i < 12 { assert b[i] == b[8..12][i - 8]; }
    else if 12 <= i < 16 { assert b[i] == b[12..16][i - 12]; }
    else if 16 <= i < 24 { assert b[i] == b[16..24][i - 16]; }
    else if 24 <= i < 32 { assert b[i] == b[24..32][i - 24]; }
    else if 32 <= i { assert b[i] == b[32..40][i - 32]; }
  }

  lemma {:induction false} ZeroDigits(k: nat)
    ensures BigEndian(0, k) == Zeros(k)
  {
    if k > 0 {
      ZeroDigits(k - 1);
    }
  }

  /** The fields sent under NTS: identifier 0x0104, the cookie 0x0204, and placeholders 0x0304 of the
      cookie's size, so many that eight cookies are there again when each is answered. */
  lemma FieldsInNumbers(uniqueId: Bytes, cookie: Bytes, left: nat)
    ensures var f := NtsFields(uniqueId, cookie, left);
            && |f| == 2 + (if left < 7 then 7 - left else 0)
            && f[0] == Field(0x0104, uniqueId) && f[1] == Field(0x0204, cookie)
            && forall i :: 2 <= i < |f| ==> f[i].fieldType == 0x0304 && |f[i].value| == |cookie|
                                            && forall j :: 0 <= j < |cookie| ==> f[i].value[j] == 0
  {
  }

  /** The server can read what was sent: the request decodes to the nonce and the fields, and its seal
      opens under the client's key with exactly the bytes before it as associated data. */
  lemma RequestIsReadable(aead: Aead, c2s: Bytes, nonce: Bytes, poll: Small, transmit: NtpTime, uniqueId: Bytes,
                          held: seq<Bytes>)
    requires aead.Lawful() && |nonce| == NONCE_LEN && held != []
    requires AllFit(NtsFields(uniqueId, held[|held| - 1], |held| - 1))
    requires var prefix := Request(poll, transmit, NtsFields(uniqueId, held[|held| - 1], |held| - 1)).Encode();
             0 < |aead.seal(c2s, nonce, prefix, [])| < 0x1_0000
    requires |NtsRequest(aead, c2s, nonce, poll, transmit, uniqueId, held)| <= MAX_PACKET
    ensures var bytes := NtsRequest(aead, c2s, nonce, poll, transmit, uniqueId, held);
            var fields := NtsFields(uniqueId, held[|held| - 1], |held| - 1);
            && Decode(bytes).Ok?
            && var p := Decode(bytes).value;
               && p.mode == Client && p.version == VERSION && p.transmitTimestamp == transmit
               && |p.extensions| == |fields| + 1 && p.extensions[..|fields|] == Padded(fields)
               && Verified(aead, p, bytes, c2s) == Some(CookiesIn([]))
  {
    var fields := NtsFields(uniqueId, held[|held| - 1], |held| - 1);
    var request := Request(poll, transmit, fields);
    assert forall i :: 0 <= i < |fields| ==> fields[i].fieldType != NTS_AUTHENTICATOR;
    hide Decode, Verified, Packet.Encode, Padded, Field.Encode, CookiesIn, SealValue, AllFit, NtsFields;
    GenuineReplyVerifies(aead, c2s, nonce, request, []);
    PaddedEncodesAlike(fields);
  }

  /** One cookie back for each cookie or placeholder sent (section 5.7 of RFC 8915) refills any store
      of one to eight to exactly eight. */
  lemma ReplyRefillsStore(held: seq<Bytes>, uniqueId: Bytes, returned: seq<Bytes>)
    requires 1 <= |held| <= COOKIE_TARGET
    requires var cookie, left := held[|held| - 1], held[..|held| - 1];
             |returned| == CountIf(NtsFields(uniqueId, cookie, |left|), IsCookieOrPlaceholder())
    ensures |Refilled(held[..|held| - 1], returned)| == COOKIE_TARGET
    ensures Refilled(held[..|held| - 1], returned) == held[..|held| - 1] + returned
  {
    var cookie, left := held[|held| - 1], held[..|held| - 1];
    var head := [Field(NTS_UNIQUE_IDENTIFIER, uniqueId), Field(NTS_COOKIE, cookie)];
    var tail := Placeholders(Wanted(|left|), |cookie|);
    CountAppend(head, tail, IsCookieOrPlaceholder());
    AllPlaceholdersCount(tail);
    assert head[..1][..0] == [] && head[..1] == [Field(NTS_UNIQUE_IDENTIFIER, uniqueId)];
    assert CountIf(head[..1], IsCookieOrPlaceholder()) == 0;
  }
}
