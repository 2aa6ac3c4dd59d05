/**
 The NTS authenticator (section 5.6 of RFC 8915). AES-SIV is a pair of functions of which
 only this is asked: opening with the same key, nonce and associated data undoes sealing.
 */
module Authenticator {
  import opened Numbers
  import opened Wire
  import opened Extension
  import opened Packet
  import KeyExchange

  const NONCE_LEN: nat := 16

  /** Arguments in order: key, nonce, associated data, message. */
  datatype Aead = Aead(
    seal: (Bytes, Bytes, Bytes, Bytes) -> Bytes,
    open: (Bytes, Bytes, Bytes, Bytes) -> Option<Bytes>)
  {
    ghost predicate Lawful() {
      forall key, nonce, aad, message :: open(key, nonce, aad, seal(key, nonce, aad, message)) == Some(message)
    }
  }

  function PadToFour(written: nat): nat {
    (4 - written % 4) % 4
  }

  function RoundUpToFour(n: nat): nat {
    (n + 3) / 4 * 4
  }

  function SealValue(nonce: Bytes, ciphertext: Bytes): Bytes {
    BigEndian(NONCE_LEN, 2) + BigEndian(|ciphertext|, 2)
    + nonce + Zeros(PadToFour(NONCE_LEN)) + ciphertext + Zeros(PadToFour(|ciphertext|))
  }

  function SealAuthenticator(aead: Aead, key: Bytes, nonce: Bytes, prefix: Bytes, plaintext: Bytes): Field {
    Field(NTS_AUTHENTICATOR, SealValue(nonce, aead.seal(key, nonce, prefix, plaintext)))
  }

  function OpenAuthenticator(aead: Aead, key: Bytes, whole: Bytes, at: nat, value: Bytes): Result<Bytes, WireError> {
    if at > |whole| then Err(BadLength(at))
    else if |value| < 4 then Err(Truncated(4, |value|))
    else
      var nonceLen := Number(value[..2]);
      var ctLen := Number(value[2..4]);
      var nonceEnd := 4 + RoundUpToFour(nonceLen);
      var ctEnd := nonceEnd + RoundUpToFour(ctLen);
      if nonceLen != NONCE_LEN || ctEnd > |value| then Err(BadLength(ctLen))
      else
        match aead.open(key, value[4..4 + nonceLen], whole[..at], value[nonceEnd..nonceEnd + ctLen])
        case None => Err(NotAuthentic)
        case Some(plaintext) => Ok(plaintext)
  }

  /** The imperative form of sealing: the value grows piece by piece. */
  method Seal(aead: Aead, key: Bytes, nonce: Bytes, prefix: Bytes, plaintext: Bytes) returns (f: Field)
    ensures f == SealAuthenticator(aead, key, nonce, prefix, plaintext)
  {
    var ciphertext := aead.seal(key, nonce, prefix, plaintext);
    var value := BigEndian(NONCE_LEN, 2);
    value := value + BigEndian(|ciphertext|, 2);
    value := value + nonce;
    value := value + Zeros(PadToFour(NONCE_LEN));
    value := value + ciphertext;
    value := value + Zeros(PadToFour(|ciphertext|));
    f := Field(NTS_AUTHENTICATOR, value);
  }

  lemma SealedShape(nonce: Bytes, ct: Bytes, value: Bytes)
    requires |nonce| == NONCE_LEN && |ct| < 0x1_0000 && SealValue(nonce, ct) <= value
    ensures |value| >= 20 + RoundUpToFour(|ct|)
    ensures Number(value[..2]) == NONCE_LEN && Number(value[2..4]) == |ct|
    ensures value[4..20] == nonce && value[20..20 + |ct|] == ct
  {
    hide Number, BigEndian;
    Widths();
    NumberOfBigEndian(NONCE_LEN, 2);
    NumberOfBigEndian(|ct|, 2);
    var rest := value[|SealValue(nonce, ct)|..];
    assert value == SealValue(nonce, ct) + rest;
    assert Zeros(PadToFour(NONCE_LEN)) == [];
    assert value == BigEndian(NONCE_LEN, 2) + (BigEndian(|ct|, 2) + (nonce + (ct + (Zeros(PadToFour(|ct|)) + rest))));
    FourParts(BigEndian(NONCE_LEN, 2), BigEndian(|ct|, 2), nonce, ct, Zeros(PadToFour(|ct|)) + rest);
  }

  lemma FourParts(a: Bytes, b: Bytes, c: Bytes, d: Bytes, e: Bytes)
    requires |a| == 2 && |b| == 2 && |c| == 16
    ensures var s := a + (b + (c + (d + e)));
            |s| == 20 + |d| + |e| && s[..2] == a && s[2..4] == b && s[4..20] == c && s[20..20 + |d|] == d
  {
  }

  /** Opening what was sealed over a datagram's prefix gives the plaintext back, with the value as the
      parser returns it, whatever follows in the datagram. */
  lemma SealOpens(aead: Aead, key: Bytes, nonce: Bytes, whole: Bytes, at: nat, plaintext: Bytes, value: Bytes)
    requires aead.Lawful() && |nonce| == NONCE_LEN && at <= |whole|
    requires |aead.seal(key, nonce, whole[..at], plaintext)| < 0x1_0000
    requires SealAuthenticator(aead, key, nonce, whole[..at], plaintext).value <= value
    ensures OpenAuthenticator(aead, key, whole, at, value) == Ok(plaintext)
  {
    hide SealValue, Number;
    SealedShape(nonce, aead.seal(key, nonce, whole[..at], plaintext), value);
  }

  // ----- the walk to the authenticator -----

  /** The offset the verifier computes: past the header and every field before the first authenticator. */
  method AuthenticatorOffset(p: Packet) returns (at: nat)
    requires p.Find(NTS_AUTHENTICATOR).Some?
    ensures at == HEADER_LEN + EncodedLens(p.extensions[..p.Find(NTS_AUTHENTICATOR).value])
  {
    at := HEADER_LEN;
    ghost var k := p.Find(NTS_AUTHENTICATOR).value;
    for i := 0 to |p.extensions|
      invariant i <= k
      invariant at == HEADER_LEN + EncodedLens(p.extensions[..i])
    {
      if p.extensions[i].fieldType == NTS_AUTHENTICATOR {
        assert i == k;
        return;
      }
      assert p.extensions[..i + 1] == p.extensions[..i] + [p.extensions[i]];
      LensAppend(p.extensions[..i], p.extensions[i]);
      at := at + p.extensions[i].EncodedLen();
    }
    assert false;
  }

  lemma {:induction false} LensAppend(a: seq<Field>, f: Field)
    ensures EncodedLens(a + [f]) == EncodedLens(a) + f.EncodedLen()
  {
    if a == [] {
      assert ([] + [f])[1..] == [];
    } else {
      assert (a + [f])[1..] == a[1..] + [f];
      LensAppend(a[1..], f);
    }
  }

  /** For every datagram that decodes, each field really lies where the walk says: in bounds, headed
      by its type, its value four bytes on, and everything before it the fields before it. */
  lemma OffsetIsExact(bytes: Bytes, k: nat)
    requires Decode(bytes).Ok? && k < |Decode(bytes).value.extensions|
    ensures var p := Decode(bytes).value;
            var at, f := HEADER_LEN + EncodedLens(p.extensions[..k]), p.extensions[k];
            && at + 4 + |f.value| <= |bytes|
            && bytes[..at] == p.Header() + EncodeFields(p.extensions[..k])
            && bytes[at..at + 2] == BigEndian(f.fieldType, 2)
            && bytes[at + 4..at + 4 + |f.value|] == f.value
  {
    hide Packet.Header, Number, BigEndian, DecodeHeader, EncodeFields, EncodedLens;
    var p := Decode(bytes).value;
    var mac := DecodeIsFaithful(bytes);
    WalkInvertsEncoding(bytes[HEADER_LEN..], Walk(bytes[HEADER_LEN..]).value);
    assert p.extensions[k].Aligned();
    FieldInPlace(p.Header(), p.extensions, k, mac);
  }

  lemma FieldInPlace(header: Bytes, fields: seq<Field>, k: nat, tail: Bytes)
    requires k < |fields| && fields[k].Aligned()
    ensures var whole := header + EncodeFields(fields) + tail;
            var at, f := |header| + EncodedLens(fields[..k]), fields[k];
            && at + 4 + |f.value| <= |whole|
            && whole[..at] == header + EncodeFields(fields[..k])
            && whole[at..at + 2] == BigEndian(f.fieldType, 2)
            && whole[at + 4..at + 4 + |f.value|] == f.value
  {
    hide EncodeFields, EncodedLens;
    var before, f, after := fields[..k], fields[k], fields[k + 1..];
    assert fields == before + ([f] + after);
    EncodeAppend(before, [f] + after);
    EncodeAppend([f], after);
    EncodeOne(f);
    FieldsAreLong(before);
    var whole := header + EncodeFields(fields) + tail;
    var start := header + EncodeFields(before);
    assert whole == start + (f.Encode() + (EncodeFields(after) + tail));
    InPlace(whole, start, f, EncodeFields(after) + tail);
  }

  lemma InPlace(whole: Bytes, start: Bytes, f: Field, rest: Bytes)
    requires f.Aligned() && whole == start + (f.Encode() + rest)
    ensures |start| + 4 + |f.value| <= |whole| && whole[..|start|] == start
    ensures whole[|start|..|start| + 2] == BigEndian(f.fieldType, 2)
    ensures whole[|start| + 4..|start| + 4 + |f.value|] == f.value
  {
    var e := f.Encode();
    assert e[..2] == BigEndian(f.fieldType, 2) && e[4..4 + |f.value|] == f.value;
    assert whole[|start|..|start| + 2] == e[..2];
    assert whole[|start| + 4..|start| + 4 + |f.value|] == e[4..4 + |f.value|];
  }

  // ----- verifying a reply -----

  /** The cookies a plaintext carries: an unreadable plaintext carries none. */
  function CookiesIn(plaintext: Bytes): seq<Bytes> {
    match Walk(plaintext)
    case Err(_) => []
    case Ok(w) => CookieValues(w.fields)
  }

  predicate IsCookie(f: Field) {
    f.fieldType == NTS_COOKIE && 0 < |f.value| <= KeyExchange.MAX_COOKIE
  }

  function CookieValues(fields: seq<Field>): seq<Bytes> {
    if fields == [] then []
    else CookieValues(fields[..|fields| - 1]) + if IsCookie(fields[|fields| - 1]) then [fields[|fields| - 1].value] else []
  }

  /** What verification makes of a reply: its cookies, or None when it is not authentic. */
  function Verified(aead: Aead, p: Packet, bytes: Bytes, key: Bytes): Option<seq<Bytes>> {
    match p.Find(NTS_AUTHENTICATOR)
    case None => None
    case Some(k) =>
      match OpenAuthenticator(aead, key, bytes, HEADER_LEN + EncodedLens(p.extensions[..k]), p.extensions[k].value)
      case Err(_) => None
      case Ok(plaintext) => Some(CookiesIn(plaintext))
  }

  method Verify(aead: Aead, p: Packet, bytes: Bytes, key: Bytes) returns (cookies: Option<seq<Bytes>>)
    ensures cookies == Verified(aead, p, bytes, key)
  {
    var found := p.Find(NTS_AUTHENTICATOR);
    if found.None? {
      return None;
    }
    var at := AuthenticatorOffset(p);
    var plain := OpenAuthenticator(aead, key, bytes, at, p.extensions[found.value].value);
    if plain.Err? {
      return None;
    }
    var carried := CollectCookies(plain.value);
    cookies := Some(carried);
  }

  method CollectCookies(plaintext: Bytes) returns (cookies: seq<Bytes>)
    ensures cookies == CookiesIn(plaintext)
  {
    cookies := [];
    var walked := DecodeAllWithMac(plaintext);
    if walked.Ok? {
      var fields := walked.value.fields;
      for i := 0 to |fields|
        invariant cookies == CookieValues(fields[..i])
      {
        assert fields[..i + 1][..i] == fields[..i];
        if IsCookie(fields[i]) {
          cookies := cookies + [fields[i].value];
        }
      }
      assert fields[..|fields|] == fields;
    }
  }

  /** End to end: a reply sealed by a server over its own encoding so far is opened by the client with
      exactly those bytes as associated data, and yields what was encrypted. */
  lemma GenuineReplyVerifies(aead: Aead, key: Bytes, nonce: Bytes, p: Packet, plaintext: Bytes)
    requires aead.Lawful() && |nonce| == NONCE_LEN
    requires p.WellFormed() && AllFit(p.extensions) && p.Find(NTS_AUTHENTICATOR).None?
    requires 0 < |aead.seal(key, nonce, p.Encode(), plaintext)| < 0x1_0000
    requires |p.Encode() + SealAuthenticator(aead, key, nonce, p.Encode(), plaintext).Encode()| <= MAX_PACKET
    ensures var auth := SealAuthenticator(aead, key, nonce, p.Encode(), plaintext);
            var bytes := p.Encode() + auth.Encode();
            && Decode(bytes) == Ok(p.(extensions := Padded(p.extensions) + [auth.Padded()]))
            && Verified(aead, Decode(bytes).value, bytes, key) == Some(CookiesIn(plaintext))
  {
    var prefix := p.Encode();
    var auth := SealAuthenticator(aead, key, nonce, prefix, plaintext);
    SealedIsNoMac(nonce, aead.seal(key, nonce, prefix, plaintext));
    hide *;
    AppendedDecodes(p, auth);
    AppendedVerifies(aead, key, nonce, p, plaintext);
  }

  lemma SealedIsNoMac(nonce: Bytes, ct: Bytes)
    requires |nonce| == NONCE_LEN && 0 < |ct|
    ensures !IsMacLen(Field(NTS_AUTHENTICATOR, SealValue(nonce, ct)).EncodedLen())
  {
    assert |SealValue(nonce, ct)| > 20;
  }

  function Extended(p: Packet, f: Field): Packet {
    p.(extensions := p.extensions + [f])
  }

  lemma AppendedEncodes(p: Packet, f: Field)
    requires |p.referenceId| == 4
    ensures Extended(p, f).Encode() == p.Encode() + f.Encode()
    ensures Extended(p, f).Header() == p.Header()
  {
    EncodeAppend(p.extensions, [f]);
    EncodeOne(f);
    assert Extended(p, f).Header() == p.Header();
  }

  lemma {:induction false} PaddedAppend(a: seq<Field>, f: Field)
    ensures Padded(a + [f]) == Padded(a) + [f.Padded()]
  {
    if a == [] {
      assert ([] + [f])[1..] == [];
    } else {
      assert (a + [f])[1..] == a[1..] + [f];
      PaddedAppend(a[1..], f);
    }
  }

  lemma AppendedDecodes(p: Packet, f: Field)
    requires p.WellFormed() && AllFit(p.extensions) && |p.Encode() + f.Encode()| <= MAX_PACKET && !IsMacLen(f.EncodedLen())
    ensures Decode(p.Encode() + f.Encode()) == Ok(p.(extensions := Padded(p.extensions) + [f.Padded()]))
  {
    hide Packet.Header, Decode, Padded, EncodeFields, Field.EncodedLen, Field.Padded;
    AppendedEncodes(p, f);
    PaddedAppend(p.extensions, f);
    EncodeIsDecodable(Extended(p, f));
  }

  lemma AppendedVerifies(aead: Aead, key: Bytes, nonce: Bytes, p: Packet, plaintext: Bytes)
    requires aead.Lawful() && |nonce| == NONCE_LEN
    requires p.WellFormed() && p.Find(NTS_AUTHENTICATOR).None?
    requires |aead.seal(key, nonce, p.Encode(), plaintext)| < 0x1_0000
    ensures var auth := SealAuthenticator(aead, key, nonce, p.Encode(), plaintext);
            Verified(aead, p.(extensions := Padded(p.extensions) + [auth.Padded()]), p.Encode() + auth.Encode(), key)
            == Some(CookiesIn(plaintext))
  {
    hide Packet.Header, EncodeFields, EncodedLens, Field.Encode, SealValue, CookiesIn, OpenAuthenticator, Padded;
    var auth := SealAuthenticator(aead, key, nonce, p.Encode(), plaintext);
    var fields := Padded(p.extensions) + [auth.Padded()];
    PaddedEncodesAlike(p.extensions);
    FirstIsLast(Padded(p.extensions), auth.Padded());
    assert fields[..|p.extensions|] == Padded(p.extensions);
    FieldsAreLong(Padded(p.extensions));
    var bytes := p.Encode() + auth.Encode();
    assert bytes[..|p.Encode()|] == p.Encode();
    SealOpens(aead, key, nonce, bytes, |p.Encode()|, plaintext, auth.Padded().value);
  }

  lemma FirstIsLast(fields: seq<Field>, f: Field)
    requires f.fieldType == NTS_AUTHENTICATOR && FirstOf(fields, NTS_AUTHENTICATOR).None?
    ensures FirstOf(fields + [f], NTS_AUTHENTICATOR) == Some(|fields|)
  {
    var k := FirstOf(fields + [f], NTS_AUTHENTICATOR);
    assert (fields + [f])[|fields|].fieldType == NTS_AUTHENTICATOR;
  }

  // ----- in the numbers of RFC 8915 -----

  /** The value of a seal: two lengths of two bytes, the nonce, the ciphertext, and zeros up to a multiple of four. */
  lemma SealLayout(nonce: Bytes, ct: Bytes)
    requires |nonce| == 16 && |ct| < 0x1_0000
    ensures var v := SealValue(nonce, ct);
            && v[..2] == [0, 16] && v[2..4] == [|ct| / 256, |ct| % 256] && v[4..20] == nonce && v[20..20 + |ct|] == ct
            && |v| % 4 == 0 && 20 + |ct| <= |v| < 24 + |ct| && forall i :: 20 + |ct| <= i < |v| ==> v[i] == 0
  {
    TwoBytes(16);
    TwoBytes(|ct|);
    assert Zeros(PadToFour(16)) == [];
  }

  /** The cookies in a plaintext are those of its parts, in order. */
  lemma {:induction false} CookieValuesAppend(a: seq<Field>, b: seq<Field>)
    ensures CookieValues(a + b) == CookieValues(a) + CookieValues(b)
  {
    if b == [] {
      assert a + b == a;
    } else {
      assert (a + b)[..|a + b| - 1] == a + b[..|b| - 1];
      CookieValuesAppend(a, b[..|b| - 1]);
    }
  }

  /** And a field is one when its type is 0x0204 and it holds one to 1024 bytes. */
  lemma CookieInNumbers(f: Field)
    ensures CookieValues([f]) == if f.fieldType == 0x0204 && 1 <= |f.value| <= 1024 then [f.value] else []
  {
    assert [f][..0] == [];
  }

  /** So what a genuine reply gives is the cookies its server put into the seal, padded to four, each at most 1024 bytes. */
  lemma SealedCookies(fields: seq<Field>)
    requires AllFit(fields) && LastIsNoMac(fields, None)
    ensures CookiesIn(EncodeFields(fields)) == CookieValues(Padded(fields))
    ensures CookiesIn([]) == []
  {
    FieldsRoundTrip(fields);
    assert Walk([]) == Ok(Walked([], None));
  }
}
