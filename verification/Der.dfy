/** Reading DER (src/config/network.rs, `tlv` and `certificate_envelope`), against
    the definite-length encoding of ITU-T X.690, sections 8.1.3 and 10.1, and the
    certificate layout of section 4.1 of RFC 5280. */
module Der {
  import opened Prelude

  const MAX_LENGTH: nat := 0x1_0000_0000
  const SEQUENCE: byte := 0x30
  const INTEGER: byte := 0x02
  const BITS: byte := 0x03
  const OID: byte := 0x06
  const VERSION: byte := 0xA0
  const UTC_TIME: byte := 0x17
  const GENERAL_TIME: byte := 0x18

  // ------------------------------------------------------------ the encoding

  function BigEndian(n: nat): (b: bytes)
    ensures |b| >= 1
  {
    if n < 256 then [n] else BigEndian(n / 256) + [n % 256]
  }

  function Value(b: bytes): nat {
    if b == [] then 0 else 256 * Value(b[..|b| - 1]) + b[|b| - 1]
  }

  /** The one length encoding that DER allows. */
  function Length(n: nat): bytes
    requires n < MAX_LENGTH
  {
    if n < 128 then [n]
    else
      BigEndianShort(n);
      [0x80 + |BigEndian(n)|] + BigEndian(n)
  }

  function Encode(tag: byte, body: bytes): bytes
    requires |body| < MAX_LENGTH
  {
    [tag] + Length(|body|) + body
  }

  lemma BigEndianShort(n: nat)
    requires n < MAX_LENGTH
    ensures |BigEndian(n)| <= 4
  {
    var a := n / 0x100;
    var b := a / 0x100;
    var c := b / 0x100;
    assert c < 0x100;
    assert |BigEndian(c)| == 1 && |BigEndian(b)| <= 2;
    assert |BigEndian(a)| <= 3;
  }

  lemma {:induction false} BigEndianValue(n: nat)
    ensures Value(BigEndian(n)) == n && (n > 0 ==> BigEndian(n)[0] != 0)
  {
    var b := BigEndian(n);
    if n < 256 {
      assert b[..0] == [];
    } else {
      BigEndianValue(n / 256);
      assert b[..|b| - 1] == BigEndian(n / 256);
      assert b[0] == BigEndian(n / 256)[0];
    }
  }

  /** Without a leading zero, a number has one big-endian form. */
  lemma {:induction false} ValueUnique(b: bytes)
    requires b != [] && (b[0] != 0 || |b| == 1)
    ensures BigEndian(Value(b)) == b
    decreases |b|
  {
    hide *;
    var init, last := b[..|b| - 1], b[|b| - 1];
    assert b == init + [last];
    if init != [] {
      ValueUnique(init);
      PositiveValue(init);
    }
    ValueLast(init, last);
  }

  lemma ValueLast(init: bytes, last: byte)
    ensures BigEndian(Value(init + [last])) == if Value(init) == 0 then [last] else BigEndian(Value(init)) + [last]
    ensures init == [] ==> Value(init) == 0
  {
    assert (init + [last])[..|init|] == init;
    var n := Value(init);
    assert (256 * n + last) / 256 == n && (256 * n + last) % 256 == last;
  }

  lemma {:induction false} PositiveValue(b: bytes)
    requires b != [] && b[0] != 0
    ensures Value(b) > 0
    decreases |b|
  {
    if |b| > 1 {
      PositiveValue(b[..|b| - 1]);
    }
  }

  lemma {:induction false} ValueBelow(b: bytes)
    requires |b| <= 4
    ensures Value(b) < MAX_LENGTH && (|b| <= 3 ==> Value(b) < 0x100_0000)
    ensures (|b| <= 2 ==> Value(b) < 0x1_0000) && (|b| <= 1 ==> Value(b) < 0x100)
    decreases |b|
  {
    if b != [] {
      ValueBelow(b[..|b| - 1]);
    }
  }

  // ------------------------------------------------------------- the reader

  /** `tlv`: the body of the leading element with this tag, and what follows it. */
  function Tlv(s: bytes, tag: byte): (r: Option<(bytes, bytes)>)
    ensures r.Some? ==> |r.value.1| < |s|
  {
    if |s| < 2 || s[0] != tag then None
    else if s[1] < 128 then
      if 2 + s[1] > |s| then None else Some((s[2..2 + s[1]], s[2 + s[1]..]))
    else
      var count := s[1] - 128;
      if count == 0 || count > 4 || |s| < 2 + count || s[2] == 0 then None
      else
        var size := Value(s[2..2 + count]);
        if size < 128 || 2 + count + size > |s| then None
        else Some((s[2 + count..2 + count + size], s[2 + count + size..]))
  }

  /** Reading an encoded element gives back its body and the rest. */
  lemma TlvReads(tag: byte, body: bytes, rest: bytes)
    requires |body| < MAX_LENGTH
    ensures Tlv(Encode(tag, body) + rest, tag) == Some((body, rest))
  {
    var s := Encode(tag, body) + rest;
    var n := |body|;
    if n < 128 {
      assert s[2..2 + n] == body && s[2 + n..] == rest;
    } else {
      BigEndianShort(n);
      BigEndianValue(n);
      var size := BigEndian(n);
      var count := |size|;
      assert s[1] == 0x80 + count;
      assert s[2..2 + count] == size && s[2] == size[0];
      assert s[2 + count..2 + count + n] == body && s[2 + count + n..] == rest;
    }
  }

  /** Whatever is accepted is the one encoding of what is returned. */
  lemma TlvCanonical(s: bytes, tag: byte)
    requires Tlv(s, tag).Some?
    ensures var (body, rest) := Tlv(s, tag).value;
            |body| < MAX_LENGTH && s == Encode(tag, body) + rest
  {
    var (body, rest) := Tlv(s, tag).value;
    if s[1] >= 128 {
      var size := s[2..2 + (s[1] - 128)];
      ValueBelow(size);
      ValueUnique(size);
      assert s == [tag] + ([s[1]] + size) + body + rest;
    } else {
      assert s == [tag] + [s[1]] + body + rest;
    }
  }

  /** The two together: acceptance means being that encoding. */
  lemma TlvExact(s: bytes, tag: byte, body: bytes, rest: bytes)
    ensures Tlv(s, tag) == Some((body, rest)) <==> |body| < MAX_LENGTH && s == Encode(tag, body) + rest
  {
    if Tlv(s, tag) == Some((body, rest)) {
      TlvCanonical(s, tag);
    }
    if |body| < MAX_LENGTH && s == Encode(tag, body) + rest {
      TlvReads(tag, body, rest);
    }
  }

  /** The reader's input, which each element read shortens. */
  class Reader {
    var input: bytes

    constructor (input: bytes)
      ensures this.input == input
    {
      this.input := input;
    }

    method Read(tag: byte) returns (r: Option<bytes>)
      modifies this
      ensures match Tlv(old(input), tag)
              case None => r.None? && input == old(input)
              case Some((body, rest)) => r == Some(body) && input == rest
    {
      if |input| < 2 || input[0] != tag {
        return None;
      }
      var offset, length := 2, input[1] as nat;
      if length >= 128 {
        var count := length - 128;
        if count == 0 || count > 4 || |input| < 2 + count || input[2] == 0 {
          return None;
        }
        length := 0;
        for i := 2 to 2 + count
          invariant length == Value(input[2..i])
        {
          assert input[2..i + 1][..i - 2] == input[2..i];
          length := 256 * length + input[i];
        }
        if length < 128 {
          return None;
        }
        offset := 2 + count;
      }
      if offset + length > |input| {
        return None;
      }
      r := Some(input[offset..offset + length]);
      input := input[offset + length..];
    }
  }

  // --------------------------------------------------------- the certificate

  datatype Algorithm = Algorithm(oid: bytes, parameters: bytes)

  datatype Time = Time(tag: byte, text: bytes)

  datatype Extra = Extra(tag: byte, body: bytes)

  /** What `certificate_envelope` distinguishes in a certificate. */
  datatype Body = Body(
    version: Option<byte>, serial: bytes, algorithm: bytes, issuer: bytes, notBefore: Time, notAfter: Time,
    subject: bytes, keyAlgorithm: Algorithm, key: bytes, extras: seq<Extra>)

  datatype Certificate = Certificate(body: Body, algorithm: Algorithm, signature: bytes)

  // Tags: 0x30 SEQUENCE, 0x02 INTEGER, 0x03 BIT STRING, 0x06 OBJECT IDENTIFIER, 0x17
  // UTCTime, 0x18 GeneralizedTime, and the context tags of section 4.1 of RFC 5280.

  /** An encoding that stays in range however long the body is; used only for
      bodies that are short enough. */
  function Element(tag: byte, body: bytes): bytes {
    if |body| < MAX_LENGTH then Encode(tag, body) else body
  }

  function EncodeAlgorithm(a: Algorithm): bytes {
    Element(0x30, Element(0x06, a.oid) + a.parameters)
  }

  function EncodeVersion(version: Option<byte>): bytes {
    if version.None? then [] else Element(0xA0, Element(0x02, [version.value]))
  }

  function EncodeExtras(extras: seq<Extra>): bytes {
    if extras == [] then [] else Element(extras[0].tag, extras[0].body) + EncodeExtras(extras[1..])
  }

  function EncodeKey(algorithm: Algorithm, key: bytes): bytes {
    Element(0x30, EncodeAlgorithm(algorithm) + Element(0x03, key))
  }

  function EncodeTimes(a: Time, b: Time): bytes {
    Element(0x30, Element(a.tag, a.text) + Element(b.tag, b.text))
  }

  function EncodeBody(b: Body): bytes {
    EncodeVersion(b.version) + (Element(0x02, b.serial) + (Element(0x30, b.algorithm)
    + (Element(0x30, b.issuer) + (EncodeTimes(b.notBefore, b.notAfter) + (Element(0x30, b.subject)
    + (EncodeKey(b.keyAlgorithm, b.key) + EncodeExtras(b.extras)))))))
  }

  function EncodeOuter(c: Certificate): bytes {
    Element(0x30, EncodeBody(c.body)) + (EncodeAlgorithm(c.algorithm) + Element(0x03, c.signature))
  }

  function EncodeCertificate(c: Certificate): bytes {
    Element(0x30, EncodeOuter(c))
  }

  predicate BitsOk(bits: bytes) {
    |bits| >= 2 && bits[0] <= 7
  }

  predicate TimeOk(t: Time) {
    (t.tag == 0x17 || t.tag == 0x18) && t.text != []
  }

  /** Trailing context tags, each at most once and in order. */
  predicate ExtrasOk(extras: seq<Extra>, previous: nat) {
    extras == []
    || ((extras[0].tag == 0x81 || extras[0].tag == 0x82 || extras[0].tag == 0xA3) && extras[0].tag > previous
        && ExtrasOk(extras[1..], extras[0].tag))
  }

  predicate BodyOk(b: Body) {
    && b.serial != [] && TimeOk(b.notBefore) && TimeOk(b.notAfter)
    && b.keyAlgorithm.oid != [] && BitsOk(b.key) && ExtrasOk(b.extras, 0)
  }

  predicate CertificateOk(c: Certificate) {
    BodyOk(c.body) && c.algorithm.oid != [] && BitsOk(c.signature) && |EncodeOuter(c)| < 0x1_0000_0000
  }

  // ------------------------------------------------------------ the parsers

  function ParseAlgorithm(s: bytes): Option<(Algorithm, bytes)> {
    var (inner, rest) :- Tlv(s, SEQUENCE);
    var (oid, parameters) :- Tlv(inner, OID);
    if oid == [] then None else Some((Algorithm(oid, parameters), rest))
  }

  function ParseBits(s: bytes): Option<bytes> {
    var (bits, rest) :- Tlv(s, BITS);
    if rest != [] || |bits| < 2 || bits[0] > 7 then None else Some(bits)
  }

  function ParseVersion(s: bytes): Option<(Option<byte>, bytes)> {
    if s == [] || s[0] != VERSION then Some((None, s))
    else
      var (inner, rest) :- Tlv(s, VERSION);
      var (number, left) :- Tlv(inner, INTEGER);
      if |number| != 1 || left != [] then None else Some((Some(number[0]), rest))
  }

  function ParseTime(s: bytes): Option<(Time, bytes)> {
    if s == [] || (s[0] != UTC_TIME && s[0] != GENERAL_TIME) then None
    else
      var (text, rest) :- Tlv(s, s[0]);
      if text == [] then None else Some((Time(s[0], text), rest))
  }

  function ParseTimes(s: bytes): Option<(Time, Time, bytes)> {
    var (inner, rest) :- Tlv(s, SEQUENCE);
    var (a, more) :- ParseTime(inner);
    var (b, left) :- ParseTime(more);
    if left != [] then None else Some((a, b, rest))
  }

  function ParseKey(s: bytes): Option<(Algorithm, bytes, bytes)> {
    var (inner, rest) :- Tlv(s, SEQUENCE);
    var (algorithm, more) :- ParseAlgorithm(inner);
    var key :- ParseBits(more);
    Some((algorithm, key, rest))
  }

  function ParseExtras(s: bytes, previous: nat): Option<seq<Extra>>
    decreases |s|
  {
    if s == [] then Some([])
    else if (s[0] != 0x81 && s[0] != 0x82 && s[0] != 0xA3) || s[0] <= previous then None
    else
      var (body, rest) :- Tlv(s, s[0]);
      var more :- ParseExtras(rest, s[0]);
      Some([Extra(s[0], body)] + more)
  }

  function ParseBody(s: bytes): Option<Body> {
    var (version, s1) :- ParseVersion(s);
    var (serial, s2) :- Tlv(s1, INTEGER);
    var (algorithm, s3) :- Tlv(s2, SEQUENCE);
    var (issuer, s4) :- Tlv(s3, SEQUENCE);
    var (notBefore, notAfter, s5) :- ParseTimes(s4);
    var (subject, s6) :- Tlv(s5, SEQUENCE);
    var (keyAlgorithm, key, s7) :- ParseKey(s6);
    var extras :- ParseExtras(s7, 0);
    if serial == [] then None
    else Some(Body(version, serial, algorithm, issuer, notBefore, notAfter, subject, keyAlgorithm, key, extras))
  }

  function ParseCertificate(raw: bytes): Option<Certificate> {
    var (outer, left) :- Tlv(raw, SEQUENCE);
    var (tbs, s1) :- Tlv(outer, SEQUENCE);
    var (algorithm, s2) :- ParseAlgorithm(s1);
    var signature :- ParseBits(s2);
    var body :- ParseBody(tbs);
    if left != [] then None else Some(Certificate(body, algorithm, signature))
  }

  // ------------------------------------------- parsing and encoding are inverse

  lemma ElementReads(tag: byte, body: bytes, rest: bytes)
    requires |body| < MAX_LENGTH
    ensures Tlv(Element(tag, body) + rest, tag) == Some((body, rest))
    ensures (Element(tag, body) + rest)[0] == tag
  {
    TlvReads(tag, body, rest);
  }

  lemma ElementSound(s: bytes, tag: byte)
    requires Tlv(s, tag).Some?
    ensures var (body, rest) := Tlv(s, tag).value; |body| < MAX_LENGTH && s == Element(tag, body) + rest
  {
    TlvCanonical(s, tag);
  }

  lemma ElementLonger(tag: byte, body: bytes)
    ensures |body| <= |Element(tag, body)|
  {
  }

  lemma AlgorithmReads(a: Algorithm, rest: bytes)
    requires a.oid != [] && |EncodeAlgorithm(a)| < MAX_LENGTH
    ensures ParseAlgorithm(EncodeAlgorithm(a) + rest) == Some((a, rest))
  {
    var inner := Element(OID, a.oid) + a.parameters;
    ElementLonger(SEQUENCE, inner);
    ElementLonger(OID, a.oid);
    ElementReads(SEQUENCE, inner, rest);
    ElementReads(OID, a.oid, a.parameters);
    hide Tlv, Element;
  }

  lemma AlgorithmSound(s: bytes)
    requires ParseAlgorithm(s).Some?
    ensures var (a, rest) := ParseAlgorithm(s).value; a.oid != [] && s == EncodeAlgorithm(a) + rest
  {
    ElementSound(s, SEQUENCE);
    ElementSound(Tlv(s, SEQUENCE).value.0, OID);
    hide Tlv, Element;
  }

  lemma BitsRead(bits: bytes)
    requires BitsOk(bits) && |bits| < MAX_LENGTH
    ensures ParseBits(Element(BITS, bits)) == Some(bits)
  {
    ElementReads(BITS, bits, []);
    assert Element(BITS, bits) + [] == Element(BITS, bits);
    hide Tlv, Element;
  }

  lemma BitsSound(s: bytes)
    requires ParseBits(s).Some?
    ensures BitsOk(ParseBits(s).value) && s == Element(BITS, ParseBits(s).value)
  {
    ElementSound(s, BITS);
    hide Tlv, Element;
    assert forall e: bytes :: e + [] == e;
  }

  lemma VersionReads(version: Option<byte>, rest: bytes)
    requires rest == [] || rest[0] != VERSION
    ensures ParseVersion(EncodeVersion(version) + rest) == Some((version, rest))
  {
    if version.Some? {
      var number := [version.value];
      var inner := Element(INTEGER, number);
      assert |inner| == 3;
      ElementReads(VERSION, inner, rest);
      ElementReads(INTEGER, number, []);
      assert inner + [] == inner;
      hide Tlv, Element;
    } else {
      assert EncodeVersion(version) + rest == rest;
    }
  }

  lemma VersionSound(s: bytes)
    requires ParseVersion(s).Some?
    ensures var (version, rest) := ParseVersion(s).value; s == EncodeVersion(version) + rest
  {
    if s != [] && s[0] == VERSION {
      ElementSound(s, VERSION);
      var inner := Tlv(s, VERSION).value.0;
      ElementSound(inner, INTEGER);
      var number := Tlv(inner, INTEGER).value.0;
      hide Tlv, Element;
      assert number == [number[0]];
      assert Element(INTEGER, number) + [] == Element(INTEGER, number);
    } else {
      assert [] + s == s;
    }
  }

  lemma TimeReads(t: Time, rest: bytes)
    requires TimeOk(t) && |t.text| < MAX_LENGTH
    ensures ParseTime(Element(t.tag, t.text) + rest) == Some((t, rest))
  {
    ElementReads(t.tag, t.text, rest);
    hide Tlv, Element;
  }

  lemma TimeSound(s: bytes)
    requires ParseTime(s).Some?
    ensures var (t, rest) := ParseTime(s).value; TimeOk(t) && s == Element(t.tag, t.text) + rest
  {
    ElementSound(s, s[0]);
    hide Tlv, Element;
  }

  lemma TimesRead(a: Time, b: Time, rest: bytes)
    requires TimeOk(a) && TimeOk(b) && |EncodeTimes(a, b)| < MAX_LENGTH
    ensures ParseTimes(EncodeTimes(a, b) + rest) == Some((a, b, rest))
  {
    var inner := Element(a.tag, a.text) + Element(b.tag, b.text);
    ElementLonger(SEQUENCE, inner);
    ElementLonger(a.tag, a.text);
    ElementLonger(b.tag, b.text);
    ElementReads(SEQUENCE, inner, rest);
    TimeReads(a, Element(b.tag, b.text));
    TimeReads(b, []);
    assert Element(b.tag, b.text) + [] == Element(b.tag, b.text);
    hide Tlv, Element, ParseTime, TimeOk;
  }

  lemma TimesSound(s: bytes)
    requires ParseTimes(s).Some?
    ensures var (a, b, rest) := ParseTimes(s).value; TimeOk(a) && TimeOk(b) && s == EncodeTimes(a, b) + rest
  {
    ElementSound(s, SEQUENCE);
    var inner := Tlv(s, SEQUENCE).value.0;
    TimeSound(inner);
    TimeSound(ParseTime(inner).value.1);
    hide Tlv, Element, ParseTime, TimeOk;
    assert forall e: bytes :: e + [] == e;
  }

  lemma KeyReads(a: Algorithm, key: bytes, rest: bytes)
    requires a.oid != [] && BitsOk(key) && |EncodeKey(a, key)| < MAX_LENGTH
    ensures ParseKey(EncodeKey(a, key) + rest) == Some((a, key, rest))
  {
    var inner := EncodeAlgorithm(a) + Element(BITS, key);
    ElementLonger(SEQUENCE, inner);
    ElementLonger(BITS, key);
    ElementReads(SEQUENCE, inner, rest);
    AlgorithmReads(a, Element(BITS, key));
    BitsRead(key);
    hide Tlv, Element, ParseAlgorithm, ParseBits, EncodeAlgorithm;
  }

  lemma KeySound(s: bytes)
    requires ParseKey(s).Some?
    ensures var (a, key, rest) := ParseKey(s).value; a.oid != [] && BitsOk(key) && s == EncodeKey(a, key) + rest
  {
    ElementSound(s, SEQUENCE);
    var inner := Tlv(s, SEQUENCE).value.0;
    AlgorithmSound(inner);
    BitsSound(ParseAlgorithm(inner).value.1);
    hide Tlv, Element, ParseAlgorithm, ParseBits, EncodeAlgorithm;
  }

  lemma {:induction false} ExtrasRead(extras: seq<Extra>, previous: nat)
    requires ExtrasOk(extras, previous) && |EncodeExtras(extras)| < MAX_LENGTH
    ensures ParseExtras(EncodeExtras(extras), previous) == Some(extras)
    decreases |extras|
  {
    if extras != [] {
      var e, more := extras[0], EncodeExtras(extras[1..]);
      ElementLonger(e.tag, e.body);
      ElementReads(e.tag, e.body, more);
      hide Tlv, Element;
      ExtrasRead(extras[1..], e.tag);
      assert [Extra(e.tag, e.body)] + extras[1..] == extras;
    }
  }

  lemma {:induction false} ExtrasSound(s: bytes, previous: nat)
    requires ParseExtras(s, previous).Some?
    ensures var extras := ParseExtras(s, previous).value; ExtrasOk(extras, previous) && s == EncodeExtras(extras)
    decreases |s|
  {
    if s != [] {
      ElementSound(s, s[0]);
      var (body, rest) := Tlv(s, s[0]).value;
      hide Tlv, Element;
      ExtrasSound(rest, s[0]);
      var extras := ParseExtras(s, previous).value;
      assert extras[1..] == ParseExtras(rest, s[0]).value;
    }
  }

  lemma BodySound(s: bytes)
    requires ParseBody(s).Some?
    ensures BodyOk(ParseBody(s).value) && s == EncodeBody(ParseBody(s).value)
  {
    VersionSound(s);
    var s1 := ParseVersion(s).value.1;
    ElementSound(s1, INTEGER);
    var s2 := Tlv(s1, INTEGER).value.1;
    ElementSound(s2, SEQUENCE);
    var s3 := Tlv(s2, SEQUENCE).value.1;
    ElementSound(s3, SEQUENCE);
    var s4 := Tlv(s3, SEQUENCE).value.1;
    TimesSound(s4);
    var s5 := ParseTimes(s4).value.2;
    ElementSound(s5, SEQUENCE);
    var s6 := Tlv(s5, SEQUENCE).value.1;
    KeySound(s6);
    ExtrasSound(ParseKey(s6).value.2, 0);
    hide Tlv, Element, ParseVersion, ParseTimes, ParseKey, ParseExtras, EncodeVersion, EncodeTimes, EncodeKey,
      EncodeExtras, TimeOk, BitsOk, ExtrasOk;
  }

  lemma BodyReads(b: Body)
    requires BodyOk(b) && |EncodeBody(b)| < MAX_LENGTH
    ensures ParseBody(EncodeBody(b)) == Some(b)
  {
    var s7 := EncodeExtras(b.extras);
    var s6 := EncodeKey(b.keyAlgorithm, b.key) + s7;
    var s5 := Element(SEQUENCE, b.subject) + s6;
    var s4 := EncodeTimes(b.notBefore, b.notAfter) + s5;
    var s3 := Element(SEQUENCE, b.issuer) + s4;
    var s2 := Element(SEQUENCE, b.algorithm) + s3;
    var s1 := Element(INTEGER, b.serial) + s2;
    ElementLonger(INTEGER, b.serial);
    ElementLonger(SEQUENCE, b.algorithm);
    ElementLonger(SEQUENCE, b.issuer);
    ElementLonger(SEQUENCE, b.subject);
    ElementReads(INTEGER, b.serial, s2);
    VersionReads(b.version, s1);
    ElementReads(SEQUENCE, b.algorithm, s3);
    ElementReads(SEQUENCE, b.issuer, s4);
    TimesRead(b.notBefore, b.notAfter, s5);
    ElementReads(SEQUENCE, b.subject, s6);
    KeyReads(b.keyAlgorithm, b.key, s7);
    ExtrasRead(b.extras, 0);
    hide Tlv, Element, ParseVersion, ParseTimes, ParseKey, ParseExtras, EncodeVersion, EncodeTimes, EncodeKey,
      EncodeExtras, TimeOk, BitsOk, ExtrasOk;
  }

  lemma CertificateSound(raw: bytes)
    requires ParseCertificate(raw).Some?
    ensures CertificateOk(ParseCertificate(raw).value) && raw == EncodeCertificate(ParseCertificate(raw).value)
  {
    ElementSound(raw, SEQUENCE);
    var outer := Tlv(raw, SEQUENCE).value.0;
    ElementSound(outer, SEQUENCE);
    var (tbs, s1) := Tlv(outer, SEQUENCE).value;
    AlgorithmSound(s1);
    BitsSound(ParseAlgorithm(s1).value.1);
    BodySound(tbs);
    hide Tlv, Element, ParseAlgorithm, ParseBits, ParseBody, EncodeAlgorithm, EncodeBody, BodyOk, BitsOk;
    assert forall e: bytes :: e + [] == e;
  }

  lemma CertificateReads(c: Certificate)
    requires CertificateOk(c)
    ensures ParseCertificate(EncodeCertificate(c)) == Some(c)
  {
    var outer := EncodeOuter(c);
    var bits := Element(BITS, c.signature);
    ElementLonger(SEQUENCE, EncodeBody(c.body));
    ElementLonger(BITS, c.signature);
    ElementReads(SEQUENCE, outer, []);
    assert Element(SEQUENCE, outer) + [] == Element(SEQUENCE, outer);
    ElementReads(SEQUENCE, EncodeBody(c.body), EncodeAlgorithm(c.algorithm) + bits);
    AlgorithmReads(c.algorithm, bits);
    BitsRead(c.signature);
    BodyReads(c.body);
    hide Tlv, Element, ParseAlgorithm, ParseBits, ParseBody, EncodeAlgorithm, EncodeBody, BodyOk, BitsOk;
  }

  /** A certificate is accepted exactly when it is the encoding of one of the
      expected layout, and then that encoding is the input, byte for byte. */
  lemma EnvelopeExact(raw: bytes, c: Certificate)
    ensures ParseCertificate(raw) == Some(c) <==> CertificateOk(c) && raw == EncodeCertificate(c)
  {
    if ParseCertificate(raw) == Some(c) {
      CertificateSound(raw);
    }
    if CertificateOk(c) && raw == EncodeCertificate(c) {
      CertificateReads(c);
    }
    hide ParseCertificate, CertificateOk, EncodeCertificate;
  }

  /** The bytes of some certificate. */
  ghost predicate Enveloped(raw: bytes) {
    exists c :: CertificateOk(c) && raw == EncodeCertificate(c)
  }

  lemma EnvelopedIff(raw: bytes)
    ensures Enveloped(raw) <==> ParseCertificate(raw).Some?
  {
    hide ParseCertificate, CertificateOk, EncodeCertificate;
    if Enveloped(raw) {
      var c :| CertificateOk(c) && raw == EncodeCertificate(c);
      EnvelopeExact(raw, c);
    }
    if ParseCertificate(raw).Some? {
      EnvelopeExact(raw, ParseCertificate(raw).value);
    }
  }

  /** No two certificates share an encoding. */
  lemma EncodingUnique(c: Certificate, d: Certificate)
    requires CertificateOk(c) && CertificateOk(d) && EncodeCertificate(c) == EncodeCertificate(d)
    ensures c == d
  {
    CertificateReads(c);
    CertificateReads(d);
    hide *;
  }

  // ------------------------------------------------------- the check in place

  method CheckAlgorithm(reader: Reader) returns (ok: bool)
    modifies reader
    ensures ok <==> ParseAlgorithm(old(reader.input)).Some?
    ensures ok ==> reader.input == ParseAlgorithm(old(reader.input)).value.1
  {
    hide Tlv;
    var inner := reader.Read(SEQUENCE);
    if inner.None? {
      return false;
    }
    var algorithm := new Reader(inner.value);
    var oid := algorithm.Read(OID);
    ok := oid.Some? && oid.value != [];
  }

  /** A bit string that ends its element. */
  method CheckBits(reader: Reader) returns (ok: bool)
    modifies reader
    ensures ok <==> ParseBits(old(reader.input)).Some?
  {
    hide Tlv;
    var bits := reader.Read(BITS);
    ok := bits.Some? && reader.input == [] && |bits.value| >= 2 && bits.value[0] <= 7;
  }

  method CheckVersion(reader: Reader) returns (ok: bool)
    modifies reader
    ensures ok <==> ParseVersion(old(reader.input)).Some?
    ensures ok ==> reader.input == ParseVersion(old(reader.input)).value.1
  {
    hide Tlv;
    if reader.input == [] || reader.input[0] != VERSION {
      return true;
    }
    var inner := reader.Read(VERSION);
    if inner.None? {
      return false;
    }
    var version := new Reader(inner.value);
    var number := version.Read(INTEGER);
    ok := number.Some? && |number.value| == 1 && version.input == [];
  }

  method CheckTimes(reader: Reader) returns (ok: bool)
    modifies reader
    ensures ok <==> ParseTimes(old(reader.input)).Some?
    ensures ok ==> reader.input == ParseTimes(old(reader.input)).value.2
  {
    hide Tlv;
    var inner := reader.Read(SEQUENCE);
    if inner.None? {
      return false;
    }
    var validity := new Reader(inner.value);
    ok := CheckTime(validity);
    if ok {
      ok := CheckTime(validity);
    }
    ok := ok && validity.input == [];
  }

  method CheckTime(validity: Reader) returns (ok: bool)
    modifies validity
    ensures ok <==> ParseTime(old(validity.input)).Some?
    ensures ok ==> validity.input == ParseTime(old(validity.input)).value.1
  {
    hide Tlv;
    if validity.input == [] || (validity.input[0] != UTC_TIME && validity.input[0] != GENERAL_TIME) {
      return false;
    }
    var text := validity.Read(validity.input[0]);
    ok := text.Some? && text.value != [];
  }

  method CheckKey(reader: Reader) returns (ok: bool)
    modifies reader
    ensures ok <==> ParseKey(old(reader.input)).Some?
    ensures ok ==> reader.input == ParseKey(old(reader.input)).value.2
  {
    hide Tlv, ParseAlgorithm, ParseBits;
    var inner := reader.Read(SEQUENCE);
    if inner.None? {
      return false;
    }
    var key := new Reader(inner.value);
    ok := CheckAlgorithm(key);
    if ok {
      ok := CheckBits(key);
    }
  }

  method CheckExtras(reader: Reader) returns (ok: bool)
    modifies reader
    ensures ok <==> ParseExtras(old(reader.input), 0).Some?
  {
    hide Tlv;
    var previous: nat := 0;
    while reader.input != []
      invariant ParseExtras(reader.input, previous).Some? <==> ParseExtras(old(reader.input), 0).Some?
      decreases |reader.input|
    {
      var tag := reader.input[0];
      if (tag != 0x81 && tag != 0x82 && tag != 0xA3) || tag <= previous {
        return false;
      }
      previous := tag;
      var body := reader.Read(tag);
      if body.None? {
        return false;
      }
    }
    ok := true;
  }

  method CheckBody(tbs: Reader) returns (ok: bool)
    modifies tbs
    ensures ok <==> ParseBody(old(tbs.input)).Some?
  {
    hide Tlv, ParseVersion, ParseTimes, ParseKey, ParseExtras;
    ok := CheckVersion(tbs);
    if !ok {
      return;
    }
    var serial := tbs.Read(INTEGER);
    if serial.None? || serial.value == [] {
      return false;
    }
    var algorithm := tbs.Read(SEQUENCE);
    if algorithm.None? {
      return false;
    }
    var issuer := tbs.Read(SEQUENCE);
    if issuer.None? {
      return false;
    }
    ok := CheckTimes(tbs);
    if !ok {
      return;
    }
    var subject := tbs.Read(SEQUENCE);
    if subject.None? {
      return false;
    }
    ok := CheckKey(tbs);
    if ok {
      ok := CheckExtras(tbs);
    }
  }

  /** `certificate_envelope`. */
  method CertificateEnvelope(raw: bytes) returns (ok: bool)
    ensures ok <==> Enveloped(raw)
  {
    EnvelopedIff(raw);
    hide Tlv, ParseAlgorithm, ParseBits, ParseBody, Enveloped;
    var input := new Reader(raw);
    var whole := input.Read(SEQUENCE);
    if whole.None? || input.input != [] {
      return false;
    }
    var outer := new Reader(whole.value);
    var inner := outer.Read(SEQUENCE);
    if inner.None? {
      return false;
    }
    ok := CheckAlgorithm(outer);
    if !ok {
      return;
    }
    ok := CheckBits(outer);
    if !ok {
      return;
    }
    var tbs := new Reader(inner.value);
    ok := CheckBody(tbs);
  }
}
