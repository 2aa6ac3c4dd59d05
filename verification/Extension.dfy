/** Extension fields (RFC 7822): their encoding, and the walk that reads them back. */
module Extension {
  import opened Numbers
  import opened Wire

  const MIN_FIELD: nat := 16

  const NTS_UNIQUE_IDENTIFIER: nat := 0x0104
  const NTS_COOKIE: nat := 0x0204
  const NTS_COOKIE_PLACEHOLDER: nat := 0x0304
  const NTS_AUTHENTICATOR: nat := 0x0404

  type FieldType = t: nat | t < 0x1_0000

  datatype Field = Field(fieldType: FieldType, value: Bytes) {
    function EncodedLen(): (n: nat)
      ensures n >= MIN_FIELD && n % 4 == 0 && n >= 4 + |value|
    {
      var padded := PaddedLen(|value|);
      if padded < MIN_FIELD then MIN_FIELD else padded
    }

    /** The length field is a u16, so a longer field is written with its length wrapped. */
    function Encode(): (r: Bytes)
      ensures |r| == EncodedLen()
    {
      BigEndian(fieldType, 2) + BigEndian(EncodedLen(), 2) + value + Zeros(EncodedLen() - 4 - |value|)
    }

    predicate Fits() { EncodedLen() < 0x1_0000 }

    /** Needs no padding, and a length the header can say. */
    predicate Aligned() { Fits() && EncodedLen() == 4 + |value| }

    /** The same field with its padding counted as value, which is how it is read back. */
    function Padded(): Field {
      Field(fieldType, value + Zeros(EncodedLen() - 4 - |value|))
    }
  }

  datatype LegacyMac = LegacyMac(keyId: nat, digest: Bytes)

  datatype Walked = Walked(fields: seq<Field>, mac: Option<LegacyMac>)

  function PaddedLen(valueLen: nat): nat {
    (4 + valueLen + 3) / 4 * 4
  }

  function EncodeFields(fields: seq<Field>): Bytes {
    if fields == [] then [] else fields[0].Encode() + EncodeFields(fields[1..])
  }

  function EncodedLens(fields: seq<Field>): nat {
    if fields == [] then 0 else fields[0].EncodedLen() + EncodedLens(fields[1..])
  }

  function MacBytes(mac: Option<LegacyMac>): Bytes {
    match mac
    case None => []
    case Some(m) => BigEndian(m.keyId, 4) + m.digest
  }

  predicate IsMacLen(n: nat) {
    n == 4 || n == 20 || n == 24
  }

  function Padded(fields: seq<Field>): seq<Field> {
    if fields == [] then [] else [fields[0].Padded()] + Padded(fields[1..])
  }

  /** The first field of an area, as its header measures it. */
  function FirstField(rest: Bytes, len: nat): Field
    requires 4 <= len <= |rest|
  {
    NumberOfTwo(rest[..2]);
    Field(Number(rest[..2]), rest[4..len])
  }

  function TailMac(rest: Bytes): LegacyMac
    requires |rest| >= 4
  {
    LegacyMac(Number(rest[..4]), rest[4..])
  }

  function Prepend(fields: seq<Field>, r: Result<Walked, WireError>): Result<Walked, WireError> {
    match r
    case Err(e) => Err(e)
    case Ok(w) => Ok(Walked(fields + w.fields, w.mac))
  }

  predicate LegalLen(len: nat, have: nat) {
    MIN_FIELD <= len <= have && len % 4 == 0
  }

  /** The walk over the extension area: what it makes of `rest`. */
  function Walk(rest: Bytes): Result<Walked, WireError> {
    if rest == [] then
      Ok(Walked([], None))
    else if IsMacLen(|rest|) then
      Ok(Walked([], Some(TailMac(rest))))
    else if |rest| < MIN_FIELD then
      Err(BadLength(|rest|))
    else
      var len := Number(rest[2..4]);
      if !LegalLen(len, |rest|) then Err(BadLength(len))
      else Prepend([FirstField(rest, len)], Walk(rest[len..]))
  }

  lemma NumberOfTwo(s: Bytes)
    requires |s| == 2
    ensures Number(s) < 0x1_0000
  {
    BigEndianOfNumber(s);
    Widths();
  }

  /** The parser's loop: every step consumes at least sixteen bytes. */
  method DecodeAllWithMac(bytes: Bytes) returns (r: Result<Walked, WireError>)
    ensures r == Walk(bytes)
  {
    hide Number;
    var fields: seq<Field> := [];
    var rest := bytes;
    PrependNothing(Walk(bytes));
    while true
      invariant Walk(bytes) == Prepend(fields, Walk(rest))
      decreases |rest|
    {
      if rest == [] {
        assert fields + [] == fields;
        return Ok(Walked(fields, None));
      }
      if IsMacLen(|rest|) {
        assert fields + [] == fields;
        return Ok(Walked(fields, Some(TailMac(rest))));
      }
      if |rest| < MIN_FIELD {
        return Err(BadLength(|rest|));
      }
      var fieldLen := Number(rest[2..4]);
      if fieldLen < MIN_FIELD || fieldLen % 4 != 0 || fieldLen > |rest| {
        return Err(BadLength(fieldLen));
      }
      PrependAssociates(fields, FirstField(rest, fieldLen), Walk(rest[fieldLen..]));
      fields := fields + [FirstField(rest, fieldLen)];
      rest := rest[fieldLen..];
    }
  }

  lemma PrependNothing(r: Result<Walked, WireError>)
    ensures Prepend([], r) == r
  {
    if r.Ok? {
      assert [] + r.value.fields == r.value.fields;
    }
  }

  lemma PrependAssociates(fields: seq<Field>, f: Field, r: Result<Walked, WireError>)
    ensures Prepend(fields, Prepend([f], r)) == Prepend(fields + [f], r)
  {
    if r.Ok? {
      assert fields + ([f] + r.value.fields) == (fields + [f]) + r.value.fields;
    }
  }

  // ----- the walk inverts the encoding -----

  /** A walk's result in the only form it comes in: lengths that the header can say, values that
      end on the boundary, and a last field that could not have been taken for a MAC. */
  ghost predicate Canonical(w: Walked) {
    && (forall i :: 0 <= i < |w.fields| ==> w.fields[i].Aligned())
    && (w.mac.Some? ==> IsMacLen(4 + |w.mac.value.digest|) && w.mac.value.keyId < Pow256(4))
    && LastIsNoMac(w.fields, w.mac)
  }

  predicate LastIsNoMac(fields: seq<Field>, mac: Option<LegacyMac>) {
    fields != [] ==> !IsMacLen(fields[|fields| - 1].EncodedLen() + |MacBytes(mac)|)
  }

  function WireForm(w: Walked): Bytes {
    EncodeFields(w.fields) + MacBytes(w.mac)
  }

  lemma {:induction false} FieldsAreLong(fields: seq<Field>)
    ensures |EncodeFields(fields)| == EncodedLens(fields)
    ensures EncodedLens(fields) >= MIN_FIELD * |fields|
  {
    if fields != [] {
      FieldsAreLong(fields[1..]);
    }
  }

  function Cons(f: Field, v: Walked): Walked {
    Walked([f] + v.fields, v.mac)
  }

  ghost predicate CanLead(f: Field, v: Walked) {
    && f.Aligned()
    && (v.fields == [] ==> !IsMacLen(f.EncodedLen() + |MacBytes(v.mac)|))
  }

  lemma ConsCanonical(f: Field, v: Walked)
    ensures Canonical(Cons(f, v)) <==> Canonical(v) && CanLead(f, v)
    ensures WireForm(Cons(f, v)) == f.Encode() + WireForm(v)
  {
    var w := Cons(f, v);
    assert w.fields[1..] == v.fields && w.fields[0] == f;
    if Canonical(w) {
      forall i | 0 <= i < |v.fields|
        ensures v.fields[i].Aligned()
      {
        assert v.fields[i] == w.fields[i + 1];
      }
    }
    if v.fields != [] {
      assert w.fields[|w.fields| - 1] == v.fields[|v.fields| - 1];
    }
  }

  /** A field in front makes an area longer than any MAC unless it is the last. */
  lemma LeadIsNoMac(f: Field, v: Walked)
    requires CanLead(f, v)
    ensures |f.Encode() + WireForm(v)| >= MIN_FIELD && !IsMacLen(|f.Encode() + WireForm(v)|)
  {
    FieldsAreLong(v.fields);
  }

  /** Everything the walk accepts is the encoding of what it returns. */
  lemma {:induction false} WalkIsFaithful(rest: Bytes)
    requires Walk(rest).Ok?
    ensures Canonical(Walk(rest).value) && WireForm(Walk(rest).value) == rest
    decreases |rest|
  {
    if rest == [] {
    } else if IsMacLen(|rest|) {
      TailReadBack(rest);
    } else {
      hide Canonical, WireForm, Number, Field.Encode, Field.EncodedLen, Field.Aligned, MacBytes, FirstField;
      var len := Number(rest[2..4]);
      WalkIsFaithful(rest[len..]);
      FieldReadBack(rest, len);
      ReadFaithfully(rest, len, FirstField(rest, len), Walk(rest[len..]).value);
    }
  }

  lemma ReadFaithfully(rest: Bytes, len: nat, f: Field, v: Walked)
    requires len <= |rest| && !IsMacLen(|rest|) && f.Aligned() && f.EncodedLen() == len
    requires f.Encode() == rest[..len] && Canonical(v) && WireForm(v) == rest[len..]
    ensures Canonical(Cons(f, v)) && WireForm(Cons(f, v)) == rest
  {
    assert rest == rest[..len] + rest[len..];
    ConsCanonical(f, v);
    if v.fields == [] {
      NoFields(v);
    }
  }

  lemma NoFields(v: Walked)
    requires v.fields == []
    ensures WireForm(v) == MacBytes(v.mac)
  {
  }

  lemma TailReadBack(rest: Bytes)
    requires IsMacLen(|rest|)
    ensures Canonical(Walked([], Some(TailMac(rest)))) && WireForm(Walked([], Some(TailMac(rest)))) == rest
  {
    BigEndianOfNumber(rest[..4]);
    assert rest == rest[..4] + rest[4..];
  }

  lemma FieldReadBack(rest: Bytes, len: nat)
    requires |rest| >= MIN_FIELD && len == Number(rest[2..4]) && LegalLen(len, |rest|)
    ensures var f := FirstField(rest, len);
            f.Encode() == rest[..len] && f.Aligned() && f.EncodedLen() == len
  {
    NumberOfTwo(rest[..2]);
    NumberOfTwo(rest[2..4]);
    BigEndianOfNumber(rest[..2]);
    BigEndianOfNumber(rest[2..4]);
    assert rest[..len] == rest[..2] + rest[2..4] + rest[4..len];
  }

  /** And it accepts the encoding of everything canonical. */
  lemma {:induction false} WalkAccepts(w: Walked)
    requires Canonical(w)
    ensures Walk(WireForm(w)) == Ok(w)
    decreases |w.fields|
  {
    if w.fields == [] {
      if w.mac.Some? {
        TailWritten(w.mac.value);
      }
    } else {
      hide Canonical, WireForm, Number, Field.Encode, Field.EncodedLen;
      var f, v := w.fields[0], Walked(w.fields[1..], w.mac);
      assert w == Cons(f, v);
      ConsCanonical(f, v);
      WalkAccepts(v);
      LeadIsNoMac(f, v);
      var rest := WireForm(w);
      FieldWritten(f, rest);
      assert rest[f.EncodedLen()..] == WireForm(v);
    }
  }

  lemma TailWritten(m: LegacyMac)
    requires IsMacLen(4 + |m.digest|) && m.keyId < Pow256(4)
    ensures var rest := WireForm(Walked([], Some(m)));
            |rest| == 4 + |m.digest| && TailMac(rest) == m
  {
    NumberOfBigEndian(m.keyId, 4);
    var rest := WireForm(Walked([], Some(m)));
    assert rest[..4] == BigEndian(m.keyId, 4) && rest[4..] == m.digest;
  }

  lemma FieldWritten(f: Field, rest: Bytes)
    requires f.Aligned() && f.Encode() <= rest
    ensures |rest| >= MIN_FIELD && Number(rest[2..4]) == f.EncodedLen() && LegalLen(f.EncodedLen(), |rest|)
    ensures FirstField(rest, f.EncodedLen()) == f
  {
    Widths();
    NumberOfBigEndian(f.fieldType, 2);
    NumberOfBigEndian(f.EncodedLen(), 2);
    var e := f.Encode();
    assert rest[..2] == e[..2] == BigEndian(f.fieldType, 2);
    assert rest[2..4] == e[2..4] == BigEndian(f.EncodedLen(), 2);
    assert rest[4..f.EncodedLen()] == e[4..] == f.value;
  }

  /** The parser is the exact inverse of the encoder. */
  lemma WalkInvertsEncoding(bytes: Bytes, w: Walked)
    ensures Walk(bytes) == Ok(w) <==> Canonical(w) && WireForm(w) == bytes
  {
    if Walk(bytes) == Ok(w) {
      WalkIsFaithful(bytes);
    }
    if Canonical(w) && WireForm(w) == bytes {
      WalkAccepts(w);
    }
  }

  lemma {:induction false} PaddedEncodesAlike(fields: seq<Field>)
    ensures EncodeFields(Padded(fields)) == EncodeFields(fields)
    ensures |Padded(fields)| == |fields|
    ensures forall i :: 0 <= i < |fields| ==> Padded(fields)[i] == fields[i].Padded()
  {
    if fields != [] {
      PaddedEncodesAlike(fields[1..]);
      PaddedField(fields[0]);
      assert Padded(fields)[1..] == Padded(fields[1..]);
    }
  }

  lemma PaddedField(f: Field)
    ensures f.Padded().EncodedLen() == f.EncodedLen()
    ensures f.Fits() ==> f.Padded().Aligned()
    ensures f.Padded().Encode() == f.Encode()
  {
  }

  predicate AllFit(fields: seq<Field>) {
    forall i :: 0 <= i < |fields| ==> fields[i].Fits()
  }

  lemma PaddedAligned(fields: seq<Field>)
    requires AllFit(fields)
    ensures forall i :: 0 <= i < |Padded(fields)| ==> Padded(fields)[i].Aligned()
  {
    hide Field.Fits, Field.Aligned, Field.Padded;
    PaddedEncodesAlike(fields);
    forall i | 0 <= i < |fields|
      ensures Padded(fields)[i].Aligned()
    {
      PaddedField(fields[i]);
    }
  }

  lemma PaddedLast(fields: seq<Field>, mac: Option<LegacyMac>)
    ensures LastIsNoMac(Padded(fields), mac) == LastIsNoMac(fields, mac)
  {
    hide IsMacLen, Field.Padded, MacBytes;
    PaddedEncodesAlike(fields);
    if fields != [] {
      PaddedField(fields[|fields| - 1]);
    }
  }

  lemma PaddedIsCanonical(fields: seq<Field>, mac: Option<LegacyMac>)
    requires AllFit(fields)
    requires mac.Some? ==> IsMacLen(4 + |mac.value.digest|) && mac.value.keyId < Pow256(4)
    ensures Canonical(Walked(Padded(fields), mac)) <==> LastIsNoMac(fields, mac)
    ensures WireForm(Walked(Padded(fields), mac)) == EncodeFields(fields) + MacBytes(mac)
  {
    hide LastIsNoMac, AllFit, Field.Aligned, MacBytes, Padded;
    PaddedAligned(fields);
    PaddedLast(fields, mac);
    PaddedEncodesAlike(fields);
  }

  /** Round trip: fields come back in order with their padding, exactly when each
      fits its 16-bit length and the last one is not the size of a MAC. */
  lemma FieldsRoundTrip(fields: seq<Field>)
    ensures Walk(EncodeFields(fields)) == Ok(Walked(Padded(fields), None)) <==> AllFit(fields) && LastIsNoMac(fields, None)
  {
    hide *;
    if AllFit(fields) {
      PaddedIsCanonical(fields, None);
      NoMacBytes(EncodeFields(fields));
    } else if Canonical(Walked(Padded(fields), None)) {
      OnlyFittingIsCanonical(fields, None);
    }
    WalkInvertsEncoding(EncodeFields(fields), Walked(Padded(fields), None));
  }

  lemma OnlyFittingIsCanonical(fields: seq<Field>, mac: Option<LegacyMac>)
    requires Canonical(Walked(Padded(fields), mac))
    ensures AllFit(fields)
  {
    hide Field.Fits, Field.Aligned, Field.Padded;
    PaddedEncodesAlike(fields);
    forall i | 0 <= i < |fields|
      ensures fields[i].Fits()
    {
      assert Padded(fields)[i].Aligned();
      AlignedFits(fields[i]);
    }
  }

  lemma AlignedFits(f: Field)
    requires f.Padded().Aligned()
    ensures f.Fits()
  {
  }

  lemma NoMacBytes(s: Bytes)
    ensures s + MacBytes(None) == s
  {
  }

  lemma {:induction false} EncodeAppend(a: seq<Field>, b: seq<Field>)
    ensures EncodeFields(a + b) == EncodeFields(a) + EncodeFields(b)
  {
    if a == [] {
      assert a + b == b;
    } else {
      assert (a + b)[1..] == a[1..] + b;
      EncodeAppend(a[1..], b);
    }
  }

  /** A last field that is the size of a MAC is lost to one. */
  lemma LastIsTakenForMac(front: seq<Field>, last: Field)
    requires AllFit(front) && IsMacLen(last.EncodedLen())
    ensures Walk(EncodeFields(front + [last])) == Ok(Walked(Padded(front), Some(TailMac(last.Encode()))))
  {
    hide *;
    EncodeAppend(front, [last]);
    EncodeOne(last);
    TailIsAMac(last.Encode(), front);
    WalkInvertsEncoding(EncodeFields(front + [last]), Walked(Padded(front), Some(TailMac(last.Encode()))));
  }

  lemma TailIsAMac(tail: Bytes, front: seq<Field>)
    requires IsMacLen(|tail|) && |tail| >= MIN_FIELD && AllFit(front)
    ensures Canonical(Walked(Padded(front), Some(TailMac(tail))))
    ensures WireForm(Walked(Padded(front), Some(TailMac(tail)))) == EncodeFields(front) + tail
  {
    hide Canonical, Padded, Field.Encode, EncodeFields;
    var mac := Some(TailMac(tail));
    BigEndianOfNumber(tail[..4]);
    assert MacBytes(mac) == tail[..4] + tail[4..] == tail;
    PaddedIsCanonical(front, mac);
  }

  lemma EncodeOne(f: Field)
    ensures EncodeFields([f]) == f.Encode()
  {
    assert EncodeFields([f]) == f.Encode() + [];
  }

  /** A field takes the least multiple of four that holds its header and value, and sixteen bytes at least. */
  lemma LengthInNumbers(f: Field)
    ensures f.EncodedLen() % 4 == 0 && f.EncodedLen() >= 16 && f.EncodedLen() >= 4 + |f.value|
    ensures forall n: nat :: n % 4 == 0 && n >= 16 && n >= 4 + |f.value| ==> f.EncodedLen() <= n
  {
  }

  /** A field on the wire: type, length, value and zeros. */
  lemma FieldLayout(f: Field)
    requires f.Fits()
    ensures var e, n := f.Encode(), |f.value|;
            && |e| == f.EncodedLen() && e[..2] == [f.fieldType / 256, f.fieldType % 256]
            && e[2..4] == [|e| / 256, |e| % 256] && e[4..4 + n] == f.value
            && forall i :: 4 + n <= i < |e| ==> e[i] == 0
  {
    TwoBytes(f.fieldType);
    TwoBytes(f.EncodedLen());
  }

  /** The field types of RFC 8915, sections 5.3 to 5.6. */
  lemma TypeNumbers()
    ensures NTS_UNIQUE_IDENTIFIER == 0x0104 && NTS_COOKIE == 0x0204
    ensures NTS_COOKIE_PLACEHOLDER == 0x0304 && NTS_AUTHENTICATOR == 0x0404
  {
  }
}
