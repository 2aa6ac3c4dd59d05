/**
 NTS key exchange (section 4 of RFC 8915): the record stream, decoded again and again
 from a growing buffer, and what a complete answer is taken to mean.
 */
module KeyExchange {
  import opened Numbers
  import opened Wire

  const END_OF_MESSAGE: nat := 0
  const NEXT_PROTOCOL: nat := 1
  const ERROR: nat := 2
  const WARNING: nat := 3
  const AEAD_ALGORITHM: nat := 4
  const NEW_COOKIE: nat := 5
  const SERVER: nat := 6
  const PORT: nat := 7

  const MAX_KE_MESSAGE: nat := 65536
  const MAX_RECORDS: nat := 1024
  const NEXT_PROTO_NTPV4: nat := 0
  const AEAD_AES_SIV_CMAC_256: nat := 15
  const DEFAULT_NTP_PORT: nat := 123
  const MAX_COOKIE: nat := 1024
  const COOKIE_TARGET: nat := 8

  datatype Record = Record(critical: bool, recordType: nat, body: Bytes) {
    predicate Fits() { recordType < 0x8000 && |body| < 0x1_0000 }

    /** The type is masked to fifteen bits and the length cast to sixteen. */
    function Encode(): Bytes {
      BigEndian(recordType % 0x8000 + if critical then 0x8000 else 0, 2) + BigEndian(|body|, 2) + body
    }

    predicate IsEnd() { recordType == END_OF_MESSAGE }
  }

  type Answer = Result<Option<seq<Record>>, WireError>

  function FirstRecord(rest: Bytes, len: nat): Record
    requires 4 + len <= |rest|
  {
    var head := Number(rest[..2]);
    Record(head / 0x8000 % 2 == 1, head % 0x8000, rest[4..4 + len])
  }

  function Prepend(records: seq<Record>, a: Answer): Answer {
    match a
    case Ok(Some(more)) => Ok(Some(records + more))
    case Ok(None) => Ok(None)
    case Err(e) => Err(e)
  }

  /** The decoder's loop from `rest` on, `have` records in. */
  function Records(rest: Bytes, have: nat): Answer {
    if |rest| < 4 then Ok(None)
    else
      var len := Number(rest[2..4]);
      if |rest| < 4 + len then Ok(None)
      else
        var record := FirstRecord(rest, len);
        if record.IsEnd() then Ok(Some([record]))
        else if have + 1 > MAX_RECORDS then Err(BadLength(have + 1))
        else Prepend([record], Records(rest[4 + len..], have + 1))
  }

  function Decoded(bytes: Bytes): Answer {
    if |bytes| > MAX_KE_MESSAGE then Err(BadLength(|bytes|)) else Records(bytes, 0)
  }

  method DecodeMessage(bytes: Bytes) returns (a: Answer)
    ensures a == Decoded(bytes)
  {
    if |bytes| > MAX_KE_MESSAGE {
      return Err(BadLength(|bytes|));
    }
    hide Number;
    var records: seq<Record> := [];
    var rest := bytes;
    PrependNothing(Records(bytes, 0));
    while true
      invariant Records(bytes, 0) == Prepend(records, Records(rest, |records|))
      decreases |rest|
    {
      if |rest| < 4 {
        return Ok(None);
      }
      var bodyLen := Number(rest[2..4]);
      if |rest| < 4 + bodyLen {
        return Ok(None);
      }
      var record := FirstRecord(rest, bodyLen);
      PrependAssociates(records, record, Records(rest[4 + bodyLen..], |records| + 1));
      records := records + [record];
      rest := rest[4 + bodyLen..];
      if record.IsEnd() {
        return Ok(Some(records));
      }
      if |records| > MAX_RECORDS {
        return Err(BadLength(|records|));
      }
    }
  }

  lemma PrependNothing(a: Answer)
    ensures Prepend([], a) == a
  {
    if a.Ok? && a.value.Some? {
      assert [] + a.value.value == a.value.value;
    }
  }

  lemma PrependAssociates(records: seq<Record>, r: Record, a: Answer)
    ensures Prepend(records, Prepend([r], a)) == Prepend(records + [r], a)
  {
    if a.Ok? && a.value.Some? {
      assert records + ([r] + a.value.value) == records + [r] + a.value.value;
    }
  }

  // ----- the decoder is a stream parser -----

  /** A verdict, good or bad, does not change when more bytes arrive. */
  lemma {:induction false} VerdictIsFinal(rest: Bytes, more: Bytes, have: nat)
    requires Records(rest, have) != Ok(None)
    ensures Records(rest + more, have) == Records(rest, have)
    decreases |rest|
  {
    hide Number;
    var len := Number(rest[2..4]);
    SameHead(rest, more, len);
    if !FirstRecord(rest, len).IsEnd() && have + 1 <= MAX_RECORDS {
      VerdictIsFinal(rest[4 + len..], more, have + 1);
    }
  }

  lemma SameHead(rest: Bytes, more: Bytes, len: nat)
    requires |rest| >= 4 + len
    ensures (rest + more)[2..4] == rest[2..4] && FirstRecord(rest + more, len) == FirstRecord(rest, len)
    ensures (rest + more)[4 + len..] == rest[4 + len..] + more
  {
    assert (rest + more)[..2] == rest[..2];
    assert (rest + more)[4..4 + len] == rest[4..4 + len];
  }

  /** A complete answer is unchanged by anything appended, as long as the buffer may hold it. */
  lemma CompleteIsStable(bytes: Bytes, more: Bytes)
    requires Decoded(bytes).Ok? && Decoded(bytes).value.Some? && |bytes + more| <= MAX_KE_MESSAGE
    ensures Decoded(bytes + more) == Decoded(bytes)
  {
    VerdictIsFinal(bytes, more, 0);
  }

  /** Every prefix of an incomplete buffer is incomplete. */
  lemma IncompletePrefixes(bytes: Bytes, k: nat)
    requires Decoded(bytes) == Ok(None) && k <= |bytes|
    ensures Decoded(bytes[..k]) == Ok(None)
  {
    if Decoded(bytes[..k]) != Ok(None) {
      assert bytes == bytes[..k] + bytes[k..];
      VerdictIsFinal(bytes[..k], bytes[k..], 0);
    }
  }

  // ----- both directions of the codec -----

  function EncodeRecords(records: seq<Record>): Bytes {
    if records == [] then [] else records[0].Encode() + EncodeRecords(records[1..])
  }

  /** One end record, last, and no more than the decoder's limit before it. */
  ghost predicate IsMessage(records: seq<Record>, have: nat) {
    && records != [] && have + |records| - 1 <= MAX_RECORDS
    && (forall i :: 0 <= i < |records| ==> records[i].Fits())
    && (forall i :: 0 <= i < |records| ==> (records[i].IsEnd() <==> i == |records| - 1))
  }

  lemma RecordWritten(r: Record, tail: Bytes)
    requires r.Fits()
    ensures var rest := r.Encode() + tail;
            && |rest| >= 4 + |r.body| && Number(rest[2..4]) == |r.body|
            && FirstRecord(rest, |r.body|) == r && rest[4 + |r.body|..] == tail
  {
    hide BigEndian, Number;
    Widths();
    var head := r.recordType + if r.critical then 0x8000 else 0;
    NumberOfBigEndian(head, 2);
    NumberOfBigEndian(|r.body|, 2);
    assert head / 0x8000 % 2 == (if r.critical then 1 else 0) && head % 0x8000 == r.recordType;
    assert r.Encode() + tail == BigEndian(head, 2) + (BigEndian(|r.body|, 2) + (r.body + tail));
    ThreeParts(BigEndian(head, 2), BigEndian(|r.body|, 2), r.body, tail);
  }

  lemma ThreeParts(a: Bytes, b: Bytes, c: Bytes, d: Bytes)
    requires |a| == 2 && |b| == 2
    ensures var s := a + (b + (c + d));
            |s| >= 4 + |c| && s[..2] == a && s[2..4] == b && s[4..4 + |c|] == c && s[4 + |c|..] == d
  {
  }

  lemma RecordRead(rest: Bytes, len: nat)
    requires |rest| >= 4 && len == Number(rest[2..4]) && 4 + len <= |rest|
    ensures FirstRecord(rest, len).Fits() && FirstRecord(rest, len).Encode() == rest[..4 + len]
  {
    Widths();
    BigEndianOfNumber(rest[..2]);
    BigEndianOfNumber(rest[2..4]);
    assert rest[..4 + len] == rest[..2] + rest[2..4] + rest[4..4 + len];
  }

  /** Decoding an encoded message gives it back, whatever follows it. */
  lemma {:induction false} RecordsRoundTrip(records: seq<Record>, tail: Bytes, have: nat)
    requires IsMessage(records, have)
    ensures Records(EncodeRecords(records) + tail, have) == Ok(Some(records))
    decreases |records|
  {
    hide Record.Encode, Number, FirstRecord, Record.Fits;
    var r, later := records[0], records[1..];
    var rest := EncodeRecords(later) + tail;
    assert EncodeRecords(records) + tail == r.Encode() + rest;
    RecordWritten(r, rest);
    assert records == [r] + later;
    if later == [] {
      assert records == [r] && r.IsEnd();
    } else {
      assert !records[0].IsEnd();
      assert IsMessage(later, have + 1);
      RecordsRoundTrip(later, tail, have + 1);
    }
  }

  /** And a complete answer is the encoding of a message, followed by bytes it did not use. */
  lemma {:induction false} RecordsAreFaithful(rest: Bytes, have: nat) returns (tail: Bytes)
    requires Records(rest, have).Ok? && Records(rest, have).value.Some? && have <= MAX_RECORDS
    ensures IsMessage(Records(rest, have).value.value, have)
    ensures rest == EncodeRecords(Records(rest, have).value.value) + tail
    decreases |rest|
  {
    hide Record.Encode, Number, FirstRecord, Record.Fits;
    var len := Number(rest[2..4]);
    var r := FirstRecord(rest, len);
    RecordRead(rest, len);
    assert rest == rest[..4 + len] + rest[4 + len..];
    var records := Records(rest, have).value.value;
    if r.IsEnd() {
      tail := rest[4 + len..];
      assert EncodeRecords([r]) == r.Encode() + [];
    } else {
      tail := RecordsAreFaithful(rest[4 + len..], have + 1);
      var later := Records(rest[4 + len..], have + 1).value.value;
      assert records == [r] + later && records[1..] == later;
      assert EncodeRecords(records) + tail == r.Encode() + (EncodeRecords(later) + tail);
    }
  }

  /** A buffer holds a complete answer exactly when it starts with an encoded message. */
  lemma CompleteExactly(bytes: Bytes, records: seq<Record>)
    requires |bytes| <= MAX_KE_MESSAGE
    ensures Decoded(bytes) == Ok(Some(records)) <==> IsMessage(records, 0) && EncodeRecords(records) <= bytes
  {
    if Decoded(bytes) == Ok(Some(records)) {
      var tail := RecordsAreFaithful(bytes, 0);
    }
    if IsMessage(records, 0) && EncodeRecords(records) <= bytes {
      var tail := bytes[|EncodeRecords(records)|..];
      assert bytes == EncodeRecords(records) + tail;
      RecordsRoundTrip(records, tail, 0);
    }
  }

  /** What is too long: a buffer of over 65536 bytes, and any that starts with 1025 records none of which is the
      end; and nothing else, for a buffer is otherwise complete or incomplete. */
  lemma TooLongExactly(bytes: Bytes)
    ensures |bytes| > 65536 ==> Decoded(bytes) == Err(BadLength(|bytes|))
    ensures |bytes| <= 65536 && Decoded(bytes).Err? ==> Decoded(bytes) == Err(BadLength(1025))
    ensures |bytes| <= 65536 && Decoded(bytes).Ok? && Decoded(bytes).value.Some? ==> 1 <= |Decoded(bytes).value.value| <= 1025
  {
    if |bytes| <= 65536 {
      ErrorIsTooMany(bytes, 0);
      if Decoded(bytes).Ok? && Decoded(bytes).value.Some? {
        CompleteExactly(bytes, Decoded(bytes).value.value);
      }
    }
  }

  lemma {:induction false} ErrorIsTooMany(rest: Bytes, have: nat)
    requires have <= 1024
    ensures Records(rest, have).Err? ==> Records(rest, have) == Err(BadLength(1025))
    decreases |rest|
  {
    hide Number, FirstRecord;
    if |rest| >= 4 && |rest| >= 4 + Number(rest[2..4]) && have < 1024 {
      ErrorIsTooMany(rest[4 + Number(rest[2..4])..], have + 1);
    }
  }

  /** A message of up to 1024 records and an end is taken, as long as it fits. */
  lemma LongMessagesAreTaken(front: seq<Record>, end: Record)
    requires |front| <= 1024 && end.IsEnd() && end.Fits() && |EncodeRecords(front + [end])| <= 65536
    requires forall i :: 0 <= i < |front| ==> front[i].Fits() && !front[i].IsEnd()
    ensures Decoded(EncodeRecords(front + [end])) == Ok(Some(front + [end]))
  {
    CompleteExactly(EncodeRecords(front + [end]), front + [end]);
  }

  // ----- reading from the stream -----

  datatype KeFailure = Protocol(error: WireError) | ClosedEarly

  function OneShot(stream: Bytes): Result<seq<Record>, KeFailure> {
    match Decoded(stream)
    case Ok(Some(records)) => Ok(records)
    case Ok(None) => Err(ClosedEarly)
    case Err(e) => Err(Protocol(e))
  }

  function Joined(chunks: seq<Bytes>): Bytes {
    if chunks == [] then [] else Joined(chunks[..|chunks| - 1]) + chunks[|chunks| - 1]
  }

  lemma {:induction false} JoinedPrefix(chunks: seq<Bytes>, k: nat)
    requires k <= |chunks|
    ensures Joined(chunks[..k]) <= Joined(chunks)
  {
    if k < |chunks| {
      JoinedPrefix(chunks[..|chunks| - 1], k);
      assert chunks[..|chunks| - 1][..k] == chunks[..k];
    } else {
      assert chunks[..k] == chunks;
    }
  }

  /** Reads the stream as it comes, in `chunks` and then closed, decoding the whole buffer again after
      each read. However a stream of at most 64 KiB is split, the result is the one-shot result. */
  method ReadMessage(chunks: seq<Bytes>) returns (r: Result<seq<Record>, KeFailure>)
    requires forall i :: 0 <= i < |chunks| ==> chunks[i] != []
    ensures |Joined(chunks)| <= MAX_KE_MESSAGE ==> r == OneShot(Joined(chunks))
    ensures r.Ok? ==> exists k :: 0 <= k <= |chunks| && Decoded(Joined(chunks[..k])) == Ok(Some(r.value))
  {
    var buffer: Bytes := [];
    var i := 0;
    while true
      invariant 0 <= i <= |chunks| && buffer == Joined(chunks[..i])
      decreases |chunks| - i
    {
      BufferSettles(chunks, i);
      if |buffer| > MAX_KE_MESSAGE {
        return Err(Protocol(BadLength(|buffer|)));
      }
      var a := DecodeMessage(buffer);
      if a.Err? {
        return Err(Protocol(a.error));
      }
      if a.value.Some? {
        return Ok(a.value.value);
      }
      if i == |chunks| {
        assert chunks[..i] == chunks;
        return Err(ClosedEarly);
      }
      assert chunks[..i + 1][..i] == chunks[..i];
      buffer := buffer + chunks[i];
      i := i + 1;
    }
  }

  /** Once some prefix of the reads has a verdict, the whole stream has the same one. */
  lemma BufferSettles(chunks: seq<Bytes>, i: nat)
    requires i <= |chunks|
    ensures |Joined(chunks[..i])| <= |Joined(chunks)|
    ensures |Joined(chunks)| <= MAX_KE_MESSAGE && Decoded(Joined(chunks[..i])) != Ok(None)
            ==> Decoded(Joined(chunks)) == Decoded(Joined(chunks[..i]))
  {
    JoinedPrefix(chunks, i);
    var before, all := Joined(chunks[..i]), Joined(chunks);
    assert all == before + all[|before|..];
    if Records(before, 0) != Ok(None) {
      VerdictIsFinal(before, all[|before|..], 0);
    }
  }

  // ----- interpreting an answer -----

  datatype Host = NotText | NotHost | Plausible

  datatype Negotiated = Negotiated(cookies: seq<Bytes>, server: Option<Bytes>, port: nat)

  /** What client and server could not agree on. */
  datatype Matter = NextProtocol | Algorithm | ServerText | ServerHost

  datatype KeError =
    | ServerError(code: nat)
    | UnknownCritical(recordType: nat)
    | NoAgreement(on: Matter)
    | NoCookies
    | Malformed(e: WireError)

  /** A body read as 16-bit numbers contains n. */
  predicate Lists(body: Bytes, n: nat)
    requires |body| % 2 == 0
  {
    exists i :: 0 <= i < |body| / 2 && Number(body[2 * i..2 * i + 2]) == n
  }

  /** A record the interpretation can carry on past. */
  predicate Acceptable(r: Record, host: Bytes -> Host) {
    if r.recordType == ERROR then false
    else if r.recordType == WARNING || r.recordType == END_OF_MESSAGE then true
    else if r.recordType == NEXT_PROTOCOL || r.recordType == AEAD_ALGORITHM then |r.body| % 2 == 0
    else if r.recordType == NEW_COOKIE then 0 < |r.body| <= MAX_COOKIE
    else if r.recordType == SERVER then host(r.body) == Plausible
    else if r.recordType == PORT then |r.body| == 2
    else !r.critical
  }

  function ErrorOf(r: Record, host: Bytes -> Host): KeError
    requires !Acceptable(r, host)
  {
    if r.recordType == ERROR then
      if |r.body| == 2 then ServerError(Number(r.body)) else Malformed(BadLength(|r.body|))
    else if r.recordType == SERVER then NoAgreement(if host(r.body).NotText? then ServerText else ServerHost)
    else if r.recordType == NEXT_PROTOCOL || r.recordType == AEAD_ALGORITHM || r.recordType == NEW_COOKIE
            || r.recordType == PORT then Malformed(BadLength(|r.body|))
    else UnknownCritical(r.recordType)
  }

  /** The body of the last record of a type, which is the one that decides. */
  function LastBody(records: seq<Record>, recordType: nat): Option<Bytes> {
    if records == [] then None
    else if records[|records| - 1].recordType == recordType then Some(records[|records| - 1].body)
    else LastBody(records[..|records| - 1], recordType)
  }

  function CookieBodies(records: seq<Record>): seq<Bytes> {
    if records == [] then []
    else CookieBodies(records[..|records| - 1])
         + if records[|records| - 1].recordType == NEW_COOKIE then [records[|records| - 1].body] else []
  }

  predicate Agrees(body: Option<Bytes>, n: nat) {
    body.Some? && |body.value| % 2 == 0 && Lists(body.value, n)
  }

  /** The first eight. */
  function Kept(cookies: seq<Bytes>): seq<Bytes> {
    if |cookies| <= COOKIE_TARGET then cookies else cookies[..COOKIE_TARGET]
  }

  /** What the first record that cannot be carried on past makes of an answer. */
  function FirstFault(records: seq<Record>, host: Bytes -> Host): Option<KeError> {
    if records == [] then None
    else if !Acceptable(records[0], host) then Some(ErrorOf(records[0], host))
    else FirstFault(records[1..], host)
  }

  function Interpreted(records: seq<Record>, host: Bytes -> Host): Result<Negotiated, KeError> {
    match FirstFault(records, host)
    case Some(e) => Err(e)
    case None =>
      if !Agrees(LastBody(records, NEXT_PROTOCOL), NEXT_PROTO_NTPV4) then Err(NoAgreement(NextProtocol))
      else if !Agrees(LastBody(records, AEAD_ALGORITHM), AEAD_AES_SIV_CMAC_256) then Err(NoAgreement(Algorithm))
      else if CookieBodies(records) == [] then Err(NoCookies)
      else Ok(Negotiated(Kept(CookieBodies(records)), LastBody(records, SERVER), PortOf(LastBody(records, PORT))))
  }

  function PortOf(body: Option<Bytes>): nat {
    match body
    case None => DEFAULT_NTP_PORT
    case Some(b) => Number(b)
  }

  /** An answer is usable exactly when no record is fatal, the last word on protocol and algorithm is
      ours, and there is a cookie; then it yields the first eight cookies and the last server and port. */
  method Interpret(records: seq<Record>, host: Bytes -> Host) returns (r: Result<Negotiated, KeError>)
    ensures r == Interpreted(records, host)
    ensures r.Ok? <==> (forall i :: 0 <= i < |records| ==> Acceptable(records[i], host))
                       && Agrees(LastBody(records, NEXT_PROTOCOL), NEXT_PROTO_NTPV4)
                       && Agrees(LastBody(records, AEAD_ALGORITHM), AEAD_AES_SIV_CMAC_256)
                       && CookieBodies(records) != []
    ensures r.Ok? ==> r.value.cookies == Kept(CookieBodies(records)) && 1 <= |r.value.cookies| <= COOKIE_TARGET
                      && r.value.server == LastBody(records, SERVER)
                      && r.value.port == match LastBody(records, PORT)
                                         case None => DEFAULT_NTP_PORT
                                         case Some(body) => Number(body)
    ensures forall i :: 0 <= i < |records| && !Acceptable(records[i], host)
                        && (forall j :: 0 <= j < i ==> Acceptable(records[j], host))
                        ==> r == Err(ErrorOf(records[i], host))
    ensures (forall i :: 0 <= i < |records| ==> Acceptable(records[i], host)) && r.Err? ==>
              r.error == if !Agrees(LastBody(records, NEXT_PROTOCOL), NEXT_PROTO_NTPV4) then NoAgreement(NextProtocol)
                         else if !Agrees(LastBody(records, AEAD_ALGORITHM), AEAD_AES_SIV_CMAC_256) then NoAgreement(Algorithm)
                         else NoCookies
  {
    hide Number, Lists;
    var out := Negotiated([], None, DEFAULT_NTP_PORT);
    var agreedProtocol, agreedAead := false, false;
    for i := 0 to |records|
      invariant forall j :: 0 <= j < i ==> Acceptable(records[j], host)
      invariant agreedProtocol == Agrees(LastBody(records[..i], NEXT_PROTOCOL), NEXT_PROTO_NTPV4)
      invariant agreedAead == Agrees(LastBody(records[..i], AEAD_ALGORITHM), AEAD_AES_SIV_CMAC_256)
      invariant out.cookies == Kept(CookieBodies(records[..i]))
      invariant out.server == LastBody(records[..i], SERVER)
      invariant out.port == match LastBody(records[..i], PORT)
                            case None => DEFAULT_NTP_PORT
                            case Some(body) => Number(body)
    {
      assert records[..i + 1][..i] == records[..i];
      var record := records[i];
      if !Acceptable(record, host) {
        FaultFound(records, i, host);
        return Err(ErrorOf(record, host));
      }
      if record.recordType == NEXT_PROTOCOL {
        agreedProtocol := Lists(record.body, NEXT_PROTO_NTPV4);
      } else if record.recordType == AEAD_ALGORITHM {
        agreedAead := Lists(record.body, AEAD_AES_SIV_CMAC_256);
      } else if record.recordType == NEW_COOKIE {
        if |out.cookies| < COOKIE_TARGET {
          out := out.(cookies := out.cookies + [record.body]);
        }
      } else if record.recordType == SERVER {
        out := out.(server := Some(record.body));
      } else if record.recordType == PORT {
        out := out.(port := Number(record.body));
      }
    }
    assert records[..|records|] == records;
    NoFault(records, host);
    if !agreedProtocol {
      return Err(NoAgreement(NextProtocol));
    }
    if !agreedAead {
      return Err(NoAgreement(Algorithm));
    }
    if out.cookies == [] {
      return Err(NoCookies);
    }
    r := Ok(out);
  }

  // ----- which records matter, in the numbers of RFC 8915 -----

  lemma {:induction false} FaultFound(records: seq<Record>, i: nat, host: Bytes -> Host)
    requires i < |records| && !Acceptable(records[i], host) && forall j :: 0 <= j < i ==> Acceptable(records[j], host)
    ensures FirstFault(records, host) == Some(ErrorOf(records[i], host))
  {
    if i > 0 {
      FaultFound(records[1..], i - 1, host);
    }
  }

  lemma {:induction false} NoFault(records: seq<Record>, host: Bytes -> Host)
    requires forall j :: 0 <= j < |records| ==> Acceptable(records[j], host)
    ensures FirstFault(records, host).None?
  {
    if records != [] {
      NoFault(records[1..], host);
    }
  }

  lemma {:induction false} FaultAppend(a: seq<Record>, b: seq<Record>, host: Bytes -> Host)
    ensures FirstFault(a + b, host) == if FirstFault(a, host).Some? then FirstFault(a, host) else FirstFault(b, host)
  {
    if a == [] {
      assert a + b == b;
    } else {
      assert (a + b)[1..] == a[1..] + b;
      FaultAppend(a[1..], b, host);
    }
  }

  lemma {:induction false} LastBodyAppend(a: seq<Record>, b: seq<Record>, recordType: nat)
    ensures LastBody(a + b, recordType) == if LastBody(b, recordType).Some? then LastBody(b, recordType) else LastBody(a, recordType)
  {
    if b == [] {
      assert a + b == a;
    } else {
      assert (a + b)[..|a + b| - 1] == a + b[..|b| - 1];
      LastBodyAppend(a, b[..|b| - 1], recordType);
    }
  }

  lemma {:induction false} CookiesAppend(a: seq<Record>, b: seq<Record>)
    ensures CookieBodies(a + b) == CookieBodies(a) + CookieBodies(b)
  {
    if b == [] {
      assert a + b == a;
    } else {
      assert (a + b)[..|a + b| - 1] == a + b[..|b| - 1];
      CookiesAppend(a, b[..|b| - 1]);
    }
  }

  function TwoByteNumber(high: int, low: int): int {
    256 * high + low
  }

  /** Whether a record is fatal, and how: an error always, with its code; an unknown one exactly when it is critical;
      and a known one exactly when its body is not of the form it should be. */
  lemma RecordVerdict(r: Record, host: Bytes -> Host)
    ensures FirstFault([r], host)
            == (if r.recordType == 2 then
                  Some(if |r.body| == 2 then ServerError(TwoByteNumber(r.body[0], r.body[1])) else Malformed(BadLength(|r.body|)))
                else if r.recordType == 0 || r.recordType == 3 then None
                else if r.recordType == 1 || r.recordType == 4 then
                  if |r.body| % 2 == 1 then Some(Malformed(BadLength(|r.body|))) else None
                else if r.recordType == 5 then
                  if |r.body| == 0 || |r.body| > 1024 then Some(Malformed(BadLength(|r.body|))) else None
                else if r.recordType == 6 then
                  match host(r.body)
                  case NotText => Some(NoAgreement(ServerText))
                  case NotHost => Some(NoAgreement(ServerHost))
                  case Plausible => None
                else if r.recordType == 7 then
                  if |r.body| != 2 then Some(Malformed(BadLength(|r.body|))) else None
                else if r.critical then Some(UnknownCritical(r.recordType)) else None)
  {
    assert FirstFault([r][1..], host).None?;
    if |r.body| == 2 {
      NumberOfPair(r.body);
    }
  }

  lemma NumberOfPair(s: Bytes)
    requires |s| == 2
    ensures Number(s) == TwoByteNumber(s[0], s[1])
  {
    assert Number(s[..1]) == s[0] by {
      assert s[..1][..0] == [];
    }
  }

  /** The first fatal record decides, whatever follows it. */
  lemma FatalDecides(a: seq<Record>, r: Record, b: seq<Record>, host: Bytes -> Host)
    requires FirstFault(a, host).None? && FirstFault([r], host).Some?
    ensures Interpreted(a + [r] + b, host) == Err(FirstFault([r], host).value)
  {
    FaultAppend(a, [r], host);
    FaultAppend(a + [r], b, host);
  }

  /** A warning, the end record, and any record of an unknown type that is not critical never change the answer. */
  lemma OthersAreIgnored(a: seq<Record>, r: Record, b: seq<Record>, host: Bytes -> Host)
    requires r.recordType == 3 || r.recordType == 0 || (r.recordType > 7 && !r.critical)
    ensures Interpreted(a + [r] + b, host) == Interpreted(a + b, host)
  {
    RecordVerdict(r, host);
    FaultAppend(a, [r], host);
    FaultAppend(a + [r], b, host);
    FaultAppend(a, b, host);
    CookiesAppend(a, [r]);
    CookiesAppend(a + [r], b);
    CookiesAppend(a, b);
    assert [r][..0] == [];
    assert CookieBodies([r]) == [] && CookieBodies(a) + [] == CookieBodies(a);
    forall t | t == 1 || t == 4 || t == 6 || t == 7
      ensures LastBody(a + [r] + b, t) == LastBody(a + b, t)
    {
      assert LastBody([r], t).None?;
      LastBodyAppend(a, [r], t);
      LastBodyAppend(a + [r], b, t);
      LastBodyAppend(a, b, t);
    }
  }

  /** Whether the last protocol record lists NTPv4, number 0, and the last algorithm record
      AEAD_AES_SIV_CMAC_256, number 15, is what agreement comes to; earlier ones do not count. */
  lemma LastWordCounts(records: seq<Record>, r: Record, host: Bytes -> Host)
    requires FirstFault(records, host).None? && |r.body| == 2
    ensures r.recordType == 1 && r.body != [0, 0] ==> Interpreted(records + [r], host) == Err(NoAgreement(NextProtocol))
    ensures r.recordType == 4 && r.body != [0, 15] ==> Interpreted(records + [r], host).Err?
    ensures r.recordType == 1 && r.body == [0, 0] ==> Agrees(LastBody(records + [r], 1), 0)
    ensures r.recordType == 4 && r.body == [0, 15] ==> Agrees(LastBody(records + [r], 4), 15)
  {
    FaultAppend(records, [r], host);
    LastBodyAppend(records, [r], 1);
    LastBodyAppend(records, [r], 4);
    RecordVerdict(r, host);
    PairLists(r.body, 0);
    PairLists(r.body, 15);
    assert LastBody([r], r.recordType) == Some(r.body);
    hide FirstFault, LastBody, Lists, Number, ErrorOf;
  }

  /** Two bytes list one number. */
  lemma PairLists(body: Bytes, n: Byte)
    requires |body| == 2
    ensures Lists(body, n) <==> body == [0, n]
  {
    NumberOfPair(body);
    assert body[2 * 0..2 * 0 + 2] == body;
    hide Number;
    if Lists(body, n) {
      var i :| 0 <= i < |body| / 2 && Number(body[2 * i..2 * i + 2]) == n;
      assert i == 0;
    }
  }

  /** The least an answer can be: protocol, algorithm, one cookie and the end. It names no server, and the port is 123. */
  lemma LeastAnswer(cookie: Bytes, host: Bytes -> Host)
    requires 0 < |cookie| <= 1024
    ensures Interpreted([Record(true, 1, [0, 0]), Record(true, 4, [0, 15]), Record(false, 5, cookie), Record(true, 0, [])], host)
            == Ok(Negotiated([cookie], None, 123))
  {
    hide Interpreted, Number, Lists, Acceptable, ErrorOf;
    var p, a, c, e := Record(true, 1, [0, 0]), Record(true, 4, [0, 15]), Record(false, 5, cookie), Record(true, 0, []);
    OthersAreIgnored([p, a, c], e, [], host);
    assert [p, a, c] + [e] + [] == [p, a, c, e] && [p, a, c] + [] == [p, a, c];
    LeastThree(p, a, c, host);
  }

  lemma LeastThree(p: Record, a: Record, c: Record, host: Bytes -> Host)
    requires p == Record(true, 1, [0, 0]) && a == Record(true, 4, [0, 15]) && c.recordType == 5 && 0 < |c.body| <= 1024
    ensures Interpreted([p, a, c], host) == Ok(Negotiated([c.body], None, 123))
  {
    hide Number, Lists, Acceptable, ErrorOf, FirstFault, LastBody, CookieBodies;
    assert [p] + [a] == [p, a] && [p, a] + [c] == [p, a, c] && [p] + [a, c] == [p, a, c];
    NoneIsFatal(p, a, c, host);
    LastBodyAppend([p], [a, c], 1);
    LastBodyAppend([p, a], [c], 4);
    BothAgree(p, a, host);
    SmallLists(p, a, c);
  }

  lemma NoneIsFatal(p: Record, a: Record, c: Record, host: Bytes -> Host)
    requires p == Record(true, 1, [0, 0]) && a == Record(true, 4, [0, 15]) && c.recordType == 5 && 0 < |c.body| <= 1024
    ensures FirstFault([p], host).None? && FirstFault([p, a], host).None? && FirstFault([p, a, c], host).None?
  {
    hide FirstFault, Acceptable, ErrorOf;
    RecordVerdict(p, host);
    RecordVerdict(a, host);
    RecordVerdict(c, host);
    FaultAppend([p], [a], host);
    FaultAppend([p, a], [c], host);
    assert [p] + [a] == [p, a] && [p, a] + [c] == [p, a, c];
  }

  lemma BothAgree(p: Record, a: Record, host: Bytes -> Host)
    requires p == Record(true, 1, [0, 0]) && a == Record(true, 4, [0, 15])
    requires FirstFault([p], host).None?
    ensures Agrees(LastBody([p], 1), 0) && Agrees(LastBody([p, a], 4), 15)
  {
    assert FirstFault([], host).None?;
    LastWordCounts([], p, host);
    LastWordCounts([p], a, host);
    assert [] + [p] == [p] && [p] + [a] == [p, a];
  }

  lemma SmallLists(p: Record, a: Record, c: Record)
    requires p.recordType == 1 && a.recordType == 4 && c.recordType == 5
    ensures LastBody([a, c], 1).None? && LastBody([c], 4).None?
    ensures LastBody([p, a, c], 6).None? && LastBody([p, a, c], 7).None? && CookieBodies([p, a, c]) == [c.body]
  {
    assert [p] + [a] == [p, a] && [p, a] + [c] == [p, a, c] && [a] + [c] == [a, c];
    assert [p][..0] == [] && [a][..0] == [] && [c][..0] == [];
    LastBodyAppend([a], [c], 1);
    LastBodyAppend([p], [a], 6);
    LastBodyAppend([p, a], [c], 6);
    LastBodyAppend([p], [a], 7);
    LastBodyAppend([p, a], [c], 7);
    CookiesAppend([p], [a]);
    CookiesAppend([p, a], [c]);
    assert CookieBodies([p]) == CookieBodies([a]) == [] && CookieBodies([c]) == [c.body];
  }

  /** A server or a port named twice is the later one's, and of the cookies the first eight are kept. */
  lemma LaterServerCounts(records: seq<Record>, r: Record, host: Bytes -> Host)
    requires Interpreted(records, host).Ok? && FirstFault([r], host).None?
    ensures var was, after := Interpreted(records, host).value, Interpreted(records + [r], host);
            && (r.recordType == 6 ==> after == Ok(was.(server := Some(r.body))))
            && (r.recordType == 7 ==> |r.body| == 2 && after == Ok(was.(port := TwoByteNumber(r.body[0], r.body[1]))))
            && (r.recordType == 5 ==> after == Ok(was.(cookies := if |was.cookies| < 8 then was.cookies + [r.body] else was.cookies)))
  {
    FaultAppend(records, [r], host);
    CookiesAppend(records, [r]);
    RecordVerdict(r, host);
    assert [r][..0] == [];
    assert CookieBodies([r]) == if r.recordType == 5 then [r.body] else [];
    assert CookieBodies(records) + [] == CookieBodies(records);
    forall t: nat
      ensures LastBody(records + [r], t) == if r.recordType == t then Some(r.body) else LastBody(records, t)
    {
      assert LastBody([r], t) == if r.recordType == t then Some(r.body) else None;
      LastBodyAppend(records, [r], t);
    }
    if |r.body| == 2 {
      NumberOfPair(r.body);
    }
    KeptOneMore(CookieBodies(records), r.body);
  }

  lemma KeptOneMore(cookies: seq<Bytes>, cookie: Bytes)
    ensures Kept(cookies + [cookie]) == if |Kept(cookies)| < 8 then Kept(cookies) + [cookie] else Kept(cookies)
  {
  }

  /** A record on the wire: the top bit says whether it is critical, fifteen bits its type, sixteen the length. */
  lemma RecordLayout(r: Record)
    requires r.Fits()
    ensures var e := r.Encode();
            && |e| == 4 + |r.body| && (r.critical <==> e[0] >= 128) && r.recordType == TwoByteNumber(e[0] % 128, e[1])
            && |r.body| == TwoByteNumber(e[2], e[3]) && e[4..] == r.body
  {
    var n := r.recordType + if r.critical then 0x8000 else 0;
    TwoBytes(n);
    TwoBytes(|r.body|);
    assert r.Encode()[0] == n / 256 && r.Encode()[1] == n % 256;
  }
}
