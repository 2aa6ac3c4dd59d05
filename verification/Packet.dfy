/** The NTPv4 message (section 7.3 of RFC 5905): forty-eight fixed bytes and extension fields. */
module Packet {
  import opened Numbers
  import opened Wire
  import opened Extension
  import opened Timestamp

  const VERSION: nat := 4
  const HEADER_LEN: nat := 48
  const MAX_PACKET: nat := 9000

  datatype Leap = NoWarning | Insert | Delete | Unsynchronised {
    function Bits(): nat {
      match this
      case NoWarning => 0
      case Insert => 1
      case Delete => 2
      case Unsynchronised => 3
    }
  }

  function LeapOf(bits: nat): Leap {
    match bits % 4
    case 0 => NoWarning
    case 1 => Insert
    case 2 => Delete
    case _ => Unsynchronised
  }

  datatype Mode =
    | Reserved | SymmetricActive | SymmetricPassive | Client | Server | Broadcast | Control | Private
  {
    function Bits(): nat {
      match this
      case Reserved => 0
      case SymmetricActive => 1
      case SymmetricPassive => 2
      case Client => 3
      case Server => 4
      case Broadcast => 5
      case Control => 6
      case Private => 7
    }
  }

  function ModeOf(bits: nat): Mode {
    match bits % 8
    case 0 => Reserved
    case 1 => SymmetricActive
    case 2 => SymmetricPassive
    case 3 => Client
    case 4 => Server
    case 5 => Broadcast
    case 6 => Control
    case _ => Private
  }

  /** An i8. */
  type Small = i: int | -128 <= i < 128

  function SignedByte(b: Byte): Small {
    if b < 128 then b else b - 256
  }

  function AsByte(i: Small): Byte {
    if i < 0 then i + 256 else i
  }

  type U32 = n: nat | n < 0x1_0000_0000

  datatype Packet = Packet(
    leap: Leap, version: nat, mode: Mode, stratum: Byte, poll: Small, precision: Small,
    rootDelay: U32, rootDispersion: U32, referenceId: Bytes, referenceTimestamp: NtpTime,
    originTimestamp: NtpTime, receiveTimestamp: NtpTime, transmitTimestamp: NtpTime, extensions: seq<Field>)
  {
    /** What the types of the source guarantee of any packet that came off the wire. */
    predicate WellFormed() {
      version < 8 && |referenceId| == 4
    }

    /** The first byte: leap indicator, version and mode, by shifts. */
    function Flags(): Byte {
      leap.Bits() * 64 + version % 8 * 8 + mode.Bits()
    }

    function Header(): (r: Bytes)
      requires |referenceId| == 4
      ensures |r| == HEADER_LEN
    {
      [Flags(), stratum, AsByte(poll), AsByte(precision)]
      + BigEndian(rootDelay, 4) + BigEndian(rootDispersion, 4) + referenceId
      + BigEndian(referenceTimestamp, 8) + BigEndian(originTimestamp, 8)
      + BigEndian(receiveTimestamp, 8) + BigEndian(transmitTimestamp, 8)
    }

    function Encode(): Bytes
      requires |referenceId| == 4
    {
      Header() + EncodeFields(extensions)
    }

    /** The first extension field of this type, as an index. */
    function Find(fieldType: nat): Option<nat> {
      FirstOf(extensions, fieldType)
    }

    predicate IsKissOfDeath() {
      stratum == 0 && forall i :: 0 <= i < |referenceId| ==> 65 <= referenceId[i] <= 90
    }
  }

  function FirstOf(fields: seq<Field>, fieldType: nat): (k: Option<nat>)
    ensures k.Some? ==> k.value < |fields| && fields[k.value].fieldType == fieldType
                        && forall j :: 0 <= j < k.value ==> fields[j].fieldType != fieldType
    ensures k.None? ==> forall j :: 0 <= j < |fields| ==> fields[j].fieldType != fieldType
  {
    if fields == [] then None
    else if fields[0].fieldType == fieldType then Some(0)
    else
      match FirstOf(fields[1..], fieldType)
      case None => None
      case Some(k) => Some(k + 1)
  }

  lemma Bounded4(s: Bytes)
    requires |s| == 4
    ensures Number(s) < 0x1_0000_0000
  {
    BigEndianOfNumber(s);
    Widths();
  }

  lemma Bounded8(s: Bytes)
    requires |s| == 8
    ensures 0 <= Number(s) < ERA
  {
    BigEndianOfNumber(s);
    Widths();
  }

  function U32At(bytes: Bytes, at: nat): U32
    requires at + 4 <= |bytes|
  {
    Bounded4(bytes[at..at + 4]);
    Number(bytes[at..at + 4])
  }

  function U64At(bytes: Bytes, at: nat): NtpTime
    requires at + 8 <= |bytes|
  {
    Bounded8(bytes[at..at + 8]);
    Number(bytes[at..at + 8])
  }

  function DecodeHeader(bytes: Bytes, extensions: seq<Field>): (p: Packet)
    requires |bytes| >= HEADER_LEN
    ensures p.WellFormed() && p.extensions == extensions
  {
    var flags := bytes[0];
    Packet(LeapOf(flags / 64), flags / 8 % 8, ModeOf(flags), bytes[1], SignedByte(bytes[2]), SignedByte(bytes[3]),
           U32At(bytes, 4), U32At(bytes, 8), bytes[12..16], U64At(bytes, 16), U64At(bytes, 24),
           U64At(bytes, 32), U64At(bytes, 40), extensions)
  }

  function Decode(bytes: Bytes): (r: Result<Packet, WireError>)
    ensures r.Ok? ==> r.value.WellFormed()
  {
    if |bytes| < HEADER_LEN then Err(Truncated(HEADER_LEN, |bytes|))
    else if |bytes| > MAX_PACKET then Err(BadLength(|bytes|))
    else
      match Walk(bytes[HEADER_LEN..])
      case Err(e) => Err(e)
      case Ok(w) => Ok(DecodeHeader(bytes, w.fields))
  }

  /** The encoder: the header, then each field appended to the growing buffer. */
  method EncodePacket(p: Packet) returns (out: Bytes)
    requires |p.referenceId| == 4
    ensures out == p.Encode()
  {
    out := p.Header();
    for i := 0 to |p.extensions|
      invariant out == p.Header() + EncodeFields(p.extensions[..i])
    {
      assert p.extensions[..i + 1] == p.extensions[..i] + [p.extensions[i]];
      EncodeAppend(p.extensions[..i], [p.extensions[i]]);
      EncodeOne(p.extensions[i]);
      out := EncodeInto(p.extensions[i], out);
    }
    assert p.extensions[..|p.extensions|] == p.extensions;
  }

  method EncodeInto(f: Field, buffer: Bytes) returns (out: Bytes)
    ensures out == buffer + f.Encode()
  {
    var len := f.EncodedLen();
    out := buffer + BigEndian(f.fieldType, 2) + BigEndian(len, 2) + f.value;
    out := out + Zeros(len - 4 - |f.value|);
  }

  // ----- the header -----

  lemma FlagsRead(p: Packet)
    requires p.version < 8
    ensures LeapOf(p.Flags() / 64) == p.leap && p.Flags() / 8 % 8 == p.version && ModeOf(p.Flags()) == p.mode
  {
    var l, m := p.leap.Bits(), p.mode.Bits();
    assert p.Flags() / 64 == l && p.Flags() / 8 == l * 8 + p.version && p.Flags() % 8 == m;
  }

  lemma FlagsWritten(flags: Byte)
    ensures LeapOf(flags / 64).Bits() * 64 + flags / 8 % 8 * 8 + ModeOf(flags).Bits() == flags
  {
    assert LeapOf(flags / 64).Bits() == flags / 64 && ModeOf(flags).Bits() == flags % 8;
  }

  /** Every byte of the header is the field it should be. */
  lemma HeaderSlices(p: Packet, rest: Bytes)
    requires |p.referenceId| == 4
    ensures var b := p.Header() + rest;
            && b[0] == p.Flags() && b[1] == p.stratum && b[2] == AsByte(p.poll) && b[3] == AsByte(p.precision)
            && b[4..8] == BigEndian(p.rootDelay, 4) && b[8..12] == BigEndian(p.rootDispersion, 4)
            && b[12..16] == p.referenceId && b[16..24] == BigEndian(p.referenceTimestamp, 8)
            && b[24..32] == BigEndian(p.originTimestamp, 8) && b[32..40] == BigEndian(p.receiveTimestamp, 8)
            && b[40..48] == BigEndian(p.transmitTimestamp, 8) && b[48..] == rest && b[..48] == p.Header()
  {
  }

  lemma HeaderRead(p: Packet, rest: Bytes, extensions: seq<Field>)
    requires p.WellFormed()
    ensures DecodeHeader(p.Header() + rest, extensions) == p.(extensions := extensions)
  {
    hide Packet.Header, Packet.Flags, Number, BigEndian, LeapOf, ModeOf, Pow256;
    HeaderSlices(p, rest);
    FlagsRead(p);
    Widths();
    NumberOfBigEndian(p.rootDelay, 4);
    NumberOfBigEndian(p.rootDispersion, 4);
    NumberOfBigEndian(p.referenceTimestamp, 8);
    NumberOfBigEndian(p.originTimestamp, 8);
    NumberOfBigEndian(p.receiveTimestamp, 8);
    NumberOfBigEndian(p.transmitTimestamp, 8);
  }

  lemma HeaderWritten(bytes: Bytes, extensions: seq<Field>)
    requires |bytes| >= HEADER_LEN
    ensures DecodeHeader(bytes, extensions).Header() == bytes[..HEADER_LEN]
  {
    hide Number, BigEndian, LeapOf, ModeOf, Pow256;
    FlagsWritten(bytes[0]);
    BigEndianOfNumber(bytes[4..8]);
    BigEndianOfNumber(bytes[8..12]);
    BigEndianOfNumber(bytes[16..24]);
    BigEndianOfNumber(bytes[24..32]);
    BigEndianOfNumber(bytes[32..40]);
    BigEndianOfNumber(bytes[40..48]);
    assert bytes[..48] == [bytes[0], bytes[1], bytes[2], bytes[3]] + bytes[4..8] + bytes[8..12] + bytes[12..16]
                          + bytes[16..24] + bytes[24..32] + bytes[32..40] + bytes[40..48];
  }

  // ----- both round trips -----

  /** Re-encoding what was decoded gives the bytes received, less a trailing MAC. */
  lemma DecodeIsFaithful(bytes: Bytes) returns (mac: Bytes)
    requires Decode(bytes).Ok?
    ensures mac == [] || IsMacLen(|mac|)
    ensures Decode(bytes).value.Encode() + mac == bytes
  {
    hide Packet.Header, Number, BigEndian, DecodeHeader, EncodeFields;
    var area := bytes[HEADER_LEN..];
    WalkInvertsEncoding(area, Walk(area).value);
    var w := Walk(area).value;
    HeaderWritten(bytes, w.fields);
    mac := MacBytes(w.mac);
    assert bytes == bytes[..HEADER_LEN] + area;
  }

  /** Decoding what was encoded gives the packet back with its padding, exactly
      when the whole is not oversized and the last field is not the size of a MAC. */
  lemma EncodeIsDecodable(p: Packet)
    requires p.WellFormed()
    ensures Decode(p.Encode()) == Ok(p.(extensions := Padded(p.extensions)))
            <==> |p.Encode()| <= MAX_PACKET && LastIsNoMac(p.extensions, None)
  {
    hide Packet.Header, Number, BigEndian, DecodeHeader, EncodeFields, Padded, AllFit, LastIsNoMac, Walk;
    var area := EncodeFields(p.extensions);
    HeaderSlices(p, area);
    if |p.Encode()| <= MAX_PACKET {
      ShortFieldsFit(p.extensions);
      FieldsRoundTrip(p.extensions);
      PaddedLeavesNoMac(p.extensions);
      if Walk(area).Ok? {
        HeaderRead(p, area, Walk(area).value.fields);
      }
    }
  }

  lemma {:induction false} ShortFieldsFit(fields: seq<Field>)
    requires |EncodeFields(fields)| <= MAX_PACKET
    ensures AllFit(fields)
  {
    if fields != [] {
      ShortFieldsFit(fields[1..]);
      assert fields[0].EncodedLen() <= MAX_PACKET;
      assert forall i :: 0 < i < |fields| ==> fields[i] == fields[1..][i - 1];
    }
  }

  /** When the walk gives all the fields back there were no bytes left for a MAC. */
  lemma PaddedLeavesNoMac(fields: seq<Field>)
    ensures Walk(EncodeFields(fields)).Ok? && Walk(EncodeFields(fields)).value.fields == Padded(fields)
            ==> Walk(EncodeFields(fields)).value.mac.None?
  {
    var r := Walk(EncodeFields(fields));
    if r.Ok? && r.value.fields == Padded(fields) {
      WalkIsFaithful(EncodeFields(fields));
      PaddedEncodesAlike(fields);
      assert |WireForm(r.value)| == |EncodeFields(fields)| + |MacBytes(r.value.mac)|;
    }
  }

  // ----- the message, byte by byte -----

  /** What a decoded message says, in the bytes received: leap, version and mode are the first byte's top two,
      next three and low three bits; three more single bytes, and then the numbers, high byte first. */
  lemma HeaderLayout(bytes: Bytes)
    requires Decode(bytes).Ok?
    ensures 48 <= |bytes| <= 9000
    ensures var p, b := Decode(bytes).value, bytes;
            && (p.leap.NoWarning? <==> b[0] < 64) && (p.leap.Insert? <==> 64 <= b[0] < 128)
            && (p.leap.Delete? <==> 128 <= b[0] < 192) && (p.leap.Unsynchronised? <==> b[0] >= 192)
            && p.version == b[0] / 8 % 8
            && b[0] % 8 == (match p.mode
                            case Reserved => 0
                            case SymmetricActive => 1
                            case SymmetricPassive => 2
                            case Client => 3
                            case Server => 4
                            case Broadcast => 5
                            case Control => 6
                            case Private => 7)
            && p.stratum == b[1]
            && p.poll == (if b[2] < 128 then b[2] as int else b[2] as int - 256)
            && p.precision == (if b[3] < 128 then b[3] as int else b[3] as int - 256)
    ensures var p, b := Decode(bytes).value, bytes;
            && p.rootDelay == Number(b[4..8]) && p.rootDispersion == Number(b[8..12]) && p.referenceId == b[12..16]
            && p.referenceTimestamp == Number(b[16..24]) && p.originTimestamp == Number(b[24..32])
            && p.receiveTimestamp == Number(b[32..40]) && p.transmitTimestamp == Number(b[40..48])
  {
    hide Walk, Number;
  }

  /** Where the extension fields start, and what is refused for its length. */
  lemma DecodeRefuses(bytes: Bytes)
    ensures |bytes| < 48 ==> Decode(bytes) == Err(Truncated(48, |bytes|))
    ensures |bytes| > 9000 ==> Decode(bytes) == Err(BadLength(|bytes|))
    ensures 48 <= |bytes| <= 9000 ==>
              match Walk(bytes[48..])
              case Err(e) => Decode(bytes) == Err(e)
              case Ok(w) => Decode(bytes).Ok? && Decode(bytes).value.extensions == w.fields
  {
    hide Walk, Number;
  }

  /** A kiss of death is stratum 0 with a name of capitals, such as RATE, DENY or NTSN. */
  lemma KissInNumbers(p: Packet)
    requires |p.referenceId| == 4
    ensures p.IsKissOfDeath() <==> p.stratum == 0 && Capital(p.referenceId[0]) && Capital(p.referenceId[1])
                                   && Capital(p.referenceId[2]) && Capital(p.referenceId[3])
  {
  }

  predicate Capital(b: Byte) { 'A' as int <= b <= 'Z' as int }

  /** Mode and leap indicator have one number each: no two share one, and every number is one. */
  lemma BitsAreDistinct(l: Leap, m: Leap, a: Mode, b: Mode)
    ensures LeapOf(l.Bits()) == l && ModeOf(a.Bits()) == a && l.Bits() < 4 && a.Bits() < 8
    ensures l.Bits() == m.Bits() ==> l == m
    ensures a.Bits() == b.Bits() ==> a == b
  {
  }
}
