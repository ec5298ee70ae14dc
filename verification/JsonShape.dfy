/** The strict JSON shape check and the grammar it accepts. */
module JsonShape {
  import opened Prelude

  // src/config/mod.rs, `strict_json_shape` and `JsonShape`, against RFC 8259:
  // objects without arrays, with known keys, none repeated, nested at most eight
  // deep. Decoding a string token is a parameter.

  const MAX_DEPTH: nat := 8
  const QUOTE: byte := 0x22
  const BACKSLASH: byte := 0x5C
  const KNOWN: seq<bytes> := [
    Ascii("schemaVersion"), Ascii("instanceId"), Ascii("role"), Ascii("nodeId"), Ascii("chainDescription"),
    Ascii("storage"), Ascii("backend"), Ascii("dataDirectory"), Ascii("secrets"), Ascii("validatorKeystore"),
    Ascii("validatorPasswordFile"), Ascii("tlsKeyStore"), Ascii("tlsKeyPasswordFile"), Ascii("tlsTrustStore"),
    Ascii("tlsTrustPasswordFile"), Ascii("http"), Ascii("p2p"), Ascii("address"), Ascii("port")]
  const TRUE: bytes := [0x74, 0x72, 0x75, 0x65]
  const FALSE: bytes := [0x66, 0x61, 0x6C, 0x73, 0x65]
  const NULL: bytes := [0x6E, 0x75, 0x6C, 0x6C]

  // ----------------------------------------------------------- the grammar

  predicate White(b: byte) {
    b == 0x20 || b == 0x09 || b == 0x0D || b == 0x0A
  }

  predicate Gap(s: bytes) {
    forall i :: 0 <= i < |s| ==> s[i] == 0x20 || s[i] == 0x09 || s[i] == 0x0A || s[i] == 0x0D
  }

  predicate Hex(b: byte) {
    0x30 <= b <= 0x39 || 0x41 <= b <= 0x46 || 0x61 <= b <= 0x66
  }

  /** The characters of a string (section 7): plain ones and escapes. */
  predicate Characters(s: bytes) {
    s == []
    || (s[0] >= 0x20 && s[0] != QUOTE && s[0] != BACKSLASH && Characters(s[1..]))
    || (|s| >= 2 && s[0] == BACKSLASH
        && s[1] in [QUOTE, BACKSLASH, 0x2F, 0x62, 0x66, 0x6E, 0x72, 0x74] && Characters(s[2..]))
    || (|s| >= 6 && s[0] == BACKSLASH && s[1] == 0x75
        && Hex(s[2]) && Hex(s[3]) && Hex(s[4]) && Hex(s[5]) && Characters(s[6..]))
  }

  predicate Quoted(t: bytes) {
    |t| >= 2 && t[0] == QUOTE && t[|t| - 1] == QUOTE
  }

  predicate StringToken(t: bytes) {
    Quoted(t) && Characters(t[1..|t| - 1])
  }

  predicate Digits(s: bytes) {
    s != [] && forall i :: 0 <= i < |s| ==> IsDigit(s[i])
  }

  /** The parts of a number (section 6). */
  predicate Integer(s: bytes) {
    s == [0x30] || (Digits(s) && s[0] != 0x30)
  }

  predicate Fraction(s: bytes) {
    s == [] || (s[0] == 0x2E && Digits(s[1..]))
  }

  predicate Exponent(s: bytes) {
    s == []
    || ((s[0] == 0x65 || s[0] == 0x45)
        && (Digits(s[1..]) || (|s| >= 2 && (s[1] == 0x2B || s[1] == 0x2D) && Digits(s[2..]))))
  }

  datatype Numeral = Numeral(minus: bool, integer: bytes, fraction: bytes, exponent: bytes)

  predicate NumeralOk(n: Numeral) {
    Integer(n.integer) && Fraction(n.fraction) && Exponent(n.exponent)
  }

  function Sign(minus: bool): bytes {
    if minus then [0x2D] else []
  }

  function NumberText(n: Numeral): bytes {
    Sign(n.minus) + n.integer + n.fraction + n.exponent
  }

  datatype Json =
    | Text(token: bytes)
    | Number(numeral: Numeral)
    | Word(text: bytes)
    | Object(members: seq<Member>, gap: bytes)

  /** A member with the whitespace around its tokens. */
  datatype Member = Member(lead: bytes, key: bytes, beforeColon: bytes, afterColon: bytes, value: Json, trail: bytes)

  /** How a document is written (sections 2 to 4). */
  function Render(j: Json): bytes
    decreases j
  {
    match j
    case Text(token) => token
    case Number(numeral) => NumberText(numeral)
    case Word(text) => text
    case Object(members, gap) =>
      [0x7B] + (if members == [] then gap else RenderMembers(members)) + [0x7D]
  }

  function RenderMember(m: Member): bytes
    decreases m
  {
    m.lead + m.key + m.beforeColon + [0x3A] + m.afterColon + Render(m.value) + m.trail
  }

  function RenderMembers(ms: seq<Member>): bytes
    decreases ms
  {
    if ms == [] then []
    else RenderMember(ms[0]) + if |ms| == 1 then [] else [0x2C] + RenderMembers(ms[1..])
  }

  /** The keys of an instance description, at any level. */
  predicate Named(name: bytes) {
    || name == Ascii("schemaVersion") || name == Ascii("instanceId") || name == Ascii("role")
    || name == Ascii("nodeId") || name == Ascii("chainDescription")
    || name == Ascii("storage") || name == Ascii("backend") || name == Ascii("dataDirectory")
    || name == Ascii("secrets") || name == Ascii("validatorKeystore") || name == Ascii("validatorPasswordFile")
    || name == Ascii("tlsKeyStore") || name == Ascii("tlsKeyPasswordFile") || name == Ascii("tlsTrustStore")
    || name == Ascii("tlsTrustPasswordFile")
    || name == Ascii("http") || name == Ascii("p2p") || name == Ascii("address") || name == Ascii("port")
  }

  predicate KeyOk(decode: bytes -> Option<bytes>, key: bytes) {
    StringToken(key) && decode(key).Some? && Named(decode(key).value)
  }

  /** A value of the accepted shape that nests at most `room` levels deeper. */
  predicate Shaped(decode: bytes -> Option<bytes>, j: Json, room: int)
    decreases j
  {
    room >= 0
    && match j
       case Text(token) => StringToken(token) && decode(token).Some?
       case Number(numeral) => NumeralOk(numeral)
       case Word(text) => text == Ascii("true") || text == Ascii("false") || text == Ascii("null")
       case Object(members, gap) =>
         Gap(gap) && ShapedMembers(decode, members, room - 1)
         && forall i, k :: 0 <= i < k < |members| ==> decode(members[i].key) != decode(members[k].key)
  }

  predicate ShapedMember(decode: bytes -> Option<bytes>, m: Member, room: int)
    decreases m
  {
    && Gap(m.lead) && Gap(m.beforeColon) && Gap(m.afterColon) && Gap(m.trail)
    && KeyOk(decode, m.key) && Shaped(decode, m.value, room)
  }

  predicate ShapedMembers(decode: bytes -> Option<bytes>, ms: seq<Member>, room: int)
    decreases ms
  {
    ms == [] || (ShapedMember(decode, ms[0], room) && ShapedMembers(decode, ms[1..], room))
  }

  /** A document: a value between optional whitespace. */
  ghost predicate Document(decode: bytes -> Option<bytes>, raw: bytes) {
    exists lead, j, trail ::
      Gap(lead) && Gap(trail) && Shaped(decode, j, 8) && raw == lead + Render(j) + trail
  }

  // ------------------------------------------------------------ the scanner

  function SkipGap(s: bytes): (r: bytes)
    ensures |r| <= |s|
  {
    if s != [] && White(s[0]) then SkipGap(s[1..]) else s
  }

  /** Where a string that starts before `k` ends. */
  function StringEnd(s: bytes, k: nat): (r: Option<nat>)
    ensures r.Some? ==> k < r.value <= |s|
    decreases |s| - k
  {
    if k >= |s| then None
    else if s[k] == BACKSLASH then StringEnd(s, k + 2)
    else if s[k] == QUOTE then Some(k + 1)
    else StringEnd(s, k + 1)
  }

  function ScanString(decode: bytes -> Option<bytes>, s: bytes): (r: Option<(bytes, bytes)>)
    ensures r.Some? ==> |r.value.1| < |s|
  {
    if s == [] || s[0] != QUOTE then None
    else match StringEnd(s, 1)
      case None => None
      case Some(n) =>
        if decode(s[..n]).None? then None else Some((decode(s[..n]).value, s[n..]))
  }

  function DigitCount(s: bytes): (n: nat)
    ensures n <= |s|
  {
    if s != [] && IsDigit(s[0]) then 1 + DigitCount(s[1..]) else 0
  }

  function ScanDigits(s: bytes): (r: Option<bytes>)
    ensures r.Some? ==> |r.value| < |s|
  {
    if DigitCount(s) == 0 then None else Some(s[DigitCount(s)..])
  }

  function ScanInteger(s: bytes): (r: Option<bytes>)
    ensures r.Some? ==> |r.value| < |s|
  {
    if s == [] then None
    else if s[0] == 0x30 then Some(s[1..])
    else ScanDigits(s)
  }

  function ScanFraction(s: bytes): (r: Option<bytes>)
    ensures r.Some? ==> |r.value| <= |s|
  {
    if s != [] && s[0] == 0x2E then ScanDigits(s[1..]) else Some(s)
  }

  function ScanExponent(s: bytes): (r: Option<bytes>)
    ensures r.Some? ==> |r.value| <= |s|
  {
    if s != [] && (s[0] == 0x65 || s[0] == 0x45) then
      if |s| >= 2 && (s[1] == 0x2B || s[1] == 0x2D) then ScanDigits(s[2..]) else ScanDigits(s[1..])
    else Some(s)
  }

  function ScanNumber(s: bytes): (r: Option<bytes>)
    ensures r.Some? ==> |r.value| < |s|
  {
    match ScanInteger(if s != [] && s[0] == 0x2D then s[1..] else s)
    case None => None
    case Some(a) =>
      match ScanFraction(a)
      case None => None
      case Some(b) => ScanExponent(b)
  }

  function ScanWord(s: bytes, word: bytes): (r: Option<bytes>)
    ensures r.Some? ==> |r.value| == |s| - |word|
  {
    if HasPrefix(s, word) then Some(s[|word|..]) else None
  }

  function ScanByte(s: bytes, b: byte): (r: Option<bytes>)
    ensures r.Some? ==> |r.value| < |s|
  {
    var t := SkipGap(s);
    if t != [] && t[0] == b then Some(t[1..]) else None
  }

  function ScanPlain(decode: bytes -> Option<bytes>, t: bytes): (r: Option<bytes>)
    requires t != []
    ensures r.Some? ==> |r.value| < |t|
  {
    if t[0] == QUOTE then
      (match ScanString(decode, t) case None => None case Some((_, rest)) => Some(rest))
    else if t[0] == TRUE[0] then ScanWord(t, TRUE)
    else if t[0] == FALSE[0] then ScanWord(t, FALSE)
    else if t[0] == NULL[0] then ScanWord(t, NULL)
    else if t[0] == 0x2D || IsDigit(t[0]) then ScanNumber(t)
    else None
  }

  function ScanValue(decode: bytes -> Option<bytes>, s: bytes, depth: nat): (r: Option<bytes>)
    ensures r.Some? ==> |r.value| < |s|
    decreases |s|, 1
  {
    var t := SkipGap(s);
    if depth > MAX_DEPTH || t == [] then None
    else if t[0] != 0x7B then ScanPlain(decode, t)
    else
      var u := SkipGap(t[1..]);
      if u != [] && u[0] == 0x7D then Some(u[1..]) else ScanMembers(decode, u, depth, {})
  }

  function ScanMembers(decode: bytes -> Option<bytes>, s: bytes, depth: nat, seen: set<bytes>): (r: Option<bytes>)
    ensures r.Some? ==> |r.value| < |s|
    decreases |s|, 0
  {
    match ScanString(decode, SkipGap(s))
    case None => None
    case Some((key, a)) =>
      if key !in KNOWN || key in seen then None
      else match ScanByte(a, 0x3A)
        case None => None
        case Some(b) =>
          match ScanValue(decode, b, depth + 1)
          case None => None
          case Some(c) =>
            var d := SkipGap(c);
            if d != [] && d[0] == 0x7D then Some(d[1..])
            else match ScanByte(d, 0x2C)
              case None => None
              case Some(e) => ScanMembers(decode, e, depth, seen + {key})
  }

  /** What `strict_json_shape` computes. */
  function StrictShape(decode: bytes -> Option<bytes>, raw: bytes): bool {
    match ScanValue(decode, raw, 0)
    case None => false
    case Some(rest) => SkipGap(rest) == []
  }

  // ------------------------------------------------ the scanner in place

  class Scanner {
    const raw: bytes
    const decode: bytes -> Option<bytes>
    var position: nat

    constructor (raw: bytes, decode: bytes -> Option<bytes>)
      ensures Valid() && Rest() == raw && this.raw == raw && this.decode == decode
    {
      this.raw, this.decode, position := raw, decode, 0;
    }

    ghost predicate Valid()
      reads this
    {
      position <= |raw|
    }

    ghost function Rest(): bytes
      requires Valid()
      reads this
    {
      raw[position..]
    }

    /** How a scanning method stands after the corresponding function. */
    ghost predicate Stands(ok: bool, r: Option<bytes>)
      reads this
    {
      if r.None? then !ok else ok && Valid() && Rest() == r.value
    }

    method Whitespace()
      requires Valid()
      modifies this
      ensures Valid() && Rest() == SkipGap(old(Rest()))
    {
      while position < |raw| && White(raw[position])
        invariant Valid() && SkipGap(Rest()) == SkipGap(old(Rest()))
      {
        position := position + 1;
      }
    }

    method Take(b: byte) returns (ok: bool)
      requires Valid()
      modifies this
      ensures Stands(ok, ScanByte(old(Rest()), b))
    {
      Whitespace();
      ok := position < |raw| && raw[position] == b;
      if ok {
        position := position + 1;
      }
    }

    method Literal(word: bytes) returns (ok: bool)
      requires Valid()
      modifies this
      ensures Stands(ok, ScanWord(old(Rest()), word))
    {
      ok := HasPrefix(raw[position..], word);
      if ok {
        position := position + |word|;
      }
    }

    method TakeDigits() returns (ok: bool)
      requires Valid()
      modifies this
      ensures Stands(ok, ScanDigits(old(Rest())))
    {
      var start := position;
      while position < |raw| && IsDigit(raw[position])
        invariant start <= position <= |raw|
        invariant DigitCount(raw[start..]) == position - start + DigitCount(Rest())
      {
        position := position + 1;
      }
      ok := position > start;
    }

    method ScanNumeral() returns (ok: bool)
      requires Valid()
      modifies this
      ensures Stands(ok, ScanNumber(old(Rest())))
    {
      if position < |raw| && raw[position] == 0x2D {
        position := position + 1;
      }
      if position == |raw| {
        return false;
      }
      if raw[position] == 0x30 {
        position := position + 1;
      } else {
        ok := TakeDigits();
        if !ok {
          return;
        }
      }
      ok := FractionAndExponent();
    }

    method FractionAndExponent() returns (ok: bool)
      requires Valid()
      modifies this
      ensures Stands(ok, match ScanFraction(old(Rest())) case None => None case Some(b) => ScanExponent(b))
    {
      hide ScanDigits;
      if position < |raw| && raw[position] == 0x2E {
        position := position + 1;
        ok := TakeDigits();
        if !ok {
          return;
        }
      }
      if position < |raw| && (raw[position] == 0x65 || raw[position] == 0x45) {
        position := position + 1;
        if position < |raw| && (raw[position] == 0x2B || raw[position] == 0x2D) {
          position := position + 1;
        }
        ok := TakeDigits();
        return;
      }
      ok := true;
    }

    method String() returns (r: Option<bytes>)
      requires Valid()
      modifies this
      ensures match ScanString(decode, old(Rest()))
              case None => r.None?
              case Some((key, rest)) => r == Some(key) && Valid() && Rest() == rest
    {
      var start := position;
      ghost var s := Rest();
      if position == |raw| || raw[position] != QUOTE {
        return None;
      }
      position := position + 1;
      while position < |raw|
        invariant start < position && StringEnd(s, 1) == StringEnd(s, position - start)
        decreases |raw| - position
      {
        assert raw[position] == s[position - start];
        if raw[position] == BACKSLASH {
          position := position + 2;
        } else if raw[position] == QUOTE {
          position := position + 1;
          assert raw[start..position] == s[..position - start];
          return decode(raw[start..position]);
        } else {
          position := position + 1;
        }
      }
      return None;
    }

    method Plain() returns (ok: bool)
      requires Valid() && Rest() != []
      modifies this
      ensures Stands(ok, ScanPlain(decode, old(Rest())))
    {
      var b := raw[position];
      if b == QUOTE {
        var key := String();
        ok := key.Some?;
      } else if b == TRUE[0] {
        ok := Literal(TRUE);
      } else if b == FALSE[0] {
        ok := Literal(FALSE);
      } else if b == NULL[0] {
        ok := Literal(NULL);
      } else if b == 0x2D || IsDigit(b) {
        ok := ScanNumeral();
      } else {
        ok := false;
      }
    }

    method Value(depth: nat) returns (ok: bool)
      requires Valid()
      modifies this
      ensures Stands(ok, ScanValue(decode, old(Rest()), depth))
      decreases |Rest()|, 1
    {
      hide SkipGap, ScanPlain, ScanMembers;
      if depth > MAX_DEPTH {
        return false;
      }
      Whitespace();
      if position == |raw| {
        return false;
      }
      if raw[position] != 0x7B {
        ok := Plain();
        return;
      }
      position := position + 1;
      Whitespace();
      if position < |raw| && raw[position] == 0x7D {
        position := position + 1;
        return true;
      }
      ok := Members(depth);
    }

    /** The loop over the members of an object. */
    method Members(depth: nat) returns (ok: bool)
      requires Valid()
      modifies this
      ensures Stands(ok, ScanMembers(decode, old(Rest()), depth, {}))
      decreases |Rest()|, 0
    {
      hide ScanString, ScanValue, SkipGap, ScanByte, KNOWN;
      var seen: set<bytes> := {};
      while true
        invariant Valid() && |Rest()| <= |old(Rest())|
        invariant ScanMembers(decode, Rest(), depth, seen) == ScanMembers(decode, old(Rest()), depth, {})
        decreases |Rest()|
      {
        Whitespace();
        var key := String();
        if key.None? || key.value !in KNOWN || key.value in seen {
          return false;
        }
        ok := Take(0x3A);
        if !ok {
          return;
        }
        ok := Value(depth + 1);
        if !ok {
          return;
        }
        Whitespace();
        if position < |raw| && raw[position] == 0x7D {
          position := position + 1;
          return true;
        }
        ok := Take(0x2C);
        if !ok {
          return;
        }
        seen := seen + {key.value};
      }
    }
  }

  method StrictJsonShape(decode: bytes -> Option<bytes>, raw: bytes) returns (ok: bool)
    ensures ok <==> StrictShape(decode, raw)
  {
    var scan := new Scanner(raw, decode);
    ok := scan.Value(0);
    if ok {
      scan.Whitespace();
      ok := scan.position == |raw|;
    }
  }

  // --------------------------------------- tokens: scanned is grammatical

  /** The decoder accepts only string tokens. */
  ghost predicate Decodes(decode: bytes -> Option<bytes>) {
    forall t :: decode(t).Some? && Quoted(t) ==> StringToken(t)
  }

  lemma {:induction false} GapSkipped(s: bytes) returns (gap: bytes)
    ensures Gap(gap) && s == gap + SkipGap(s)
    ensures SkipGap(s) == [] || !White(SkipGap(s)[0])
    decreases |s|
  {
    if s != [] && White(s[0]) {
      var more := GapSkipped(s[1..]);
      gap := [s[0]] + more;
    } else {
      gap := [];
    }
  }

  lemma {:induction false} SkipsGap(gap: bytes, rest: bytes)
    requires Gap(gap) && (rest == [] || !White(rest[0]))
    ensures SkipGap(gap + rest) == rest
    decreases |gap|
  {
    if gap == [] {
      assert gap + rest == rest;
    } else {
      assert (gap + rest)[1..] == gap[1..] + rest;
      SkipsGap(gap[1..], rest);
    }
  }

  lemma {:induction false} EndsInQuote(s: bytes, k: nat)
    requires StringEnd(s, k).Some?
    ensures s[StringEnd(s, k).value - 1] == QUOTE
    decreases |s| - k
  {
    if s[k] == BACKSLASH {
      EndsInQuote(s, k + 2);
    } else if s[k] != QUOTE {
      EndsInQuote(s, k + 1);
    }
  }

  lemma StringSound(decode: bytes -> Option<bytes>, s: bytes) returns (t: bytes)
    requires Decodes(decode) && ScanString(decode, s).Some?
    ensures var (key, rest) := ScanString(decode, s).value;
            StringToken(t) && decode(t) == Some(key) && s == t + rest
  {
    var n := StringEnd(s, 1).value;
    EndsInQuote(s, 1);
    t := s[..n];
    assert Quoted(t);
  }

  lemma HexPassed(s: bytes, k: nat)
    requires k + 4 <= |s| && forall i :: k <= i < k + 4 ==> Hex(s[i])
    ensures StringEnd(s, k) == StringEnd(s, k + 4)
  {
    assert StringEnd(s, k) == StringEnd(s, k + 1);
    assert StringEnd(s, k + 1) == StringEnd(s, k + 2);
    assert StringEnd(s, k + 2) == StringEnd(s, k + 3);
    assert StringEnd(s, k + 3) == StringEnd(s, k + 4);
  }

  lemma {:induction false} StringEnds(s: bytes, k: nat, e: nat)
    requires k <= e < |s| && s[e] == QUOTE && Characters(s[k..e])
    ensures StringEnd(s, k) == Some(e + 1)
    decreases e - k
  {
    var t := s[k..e];
    if t != [] {
      assert t[0] == s[k];
      if t[0] != BACKSLASH {
        assert t[1..] == s[k + 1..e];
        StringEnds(s, k + 1, e);
      } else if t[1] == 0x75 {
        assert t[6..] == s[k + 6..e];
        assert forall i :: 2 <= i < 6 ==> s[k + i] == t[i];
        assert s[k + 1] == t[1];
        HexPassed(s, k + 2);
        StringEnds(s, k + 6, e);
      } else {
        assert t[2..] == s[k + 2..e];
        StringEnds(s, k + 2, e);
      }
    }
  }

  lemma StringComplete(decode: bytes -> Option<bytes>, t: bytes, rest: bytes)
    requires StringToken(t) && decode(t).Some?
    ensures ScanString(decode, t + rest) == Some((decode(t).value, rest))
  {
    var s := t + rest;
    assert s[1..|t| - 1] == t[1..|t| - 1];
    StringEnds(s, 1, |t| - 1);
    assert s[..|t|] == t && s[|t|..] == rest;
  }

  lemma {:induction false} DigitsCounted(s: bytes)
    ensures forall i :: 0 <= i < DigitCount(s) ==> IsDigit(s[i])
    decreases |s|
  {
    if s != [] && IsDigit(s[0]) {
      DigitsCounted(s[1..]);
      assert forall i :: 1 <= i < DigitCount(s) ==> s[i] == s[1..][i - 1];
    }
  }

  lemma DigitsSound(s: bytes) returns (d: bytes)
    requires ScanDigits(s).Some?
    ensures Digits(d) && s == d + ScanDigits(s).value && (s != [] ==> d[0] == s[0])
  {
    DigitsCounted(s);
    d := s[..DigitCount(s)];
  }

  lemma {:induction false} DigitsEnd(d: bytes, rest: bytes)
    requires forall i :: 0 <= i < |d| ==> IsDigit(d[i])
    requires rest == [] || !IsDigit(rest[0])
    ensures DigitCount(d + rest) == |d|
    decreases |d|
  {
    if d == [] {
      assert d + rest == rest;
    } else {
      assert (d + rest)[1..] == d[1..] + rest;
      DigitsEnd(d[1..], rest);
    }
  }

  lemma DigitsComplete(d: bytes, rest: bytes)
    requires Digits(d) && (rest == [] || !IsDigit(rest[0]))
    ensures ScanDigits(d + rest) == Some(rest)
  {
    DigitsEnd(d, rest);
  }

  lemma IntegerSound(s: bytes) returns (t: bytes)
    requires ScanInteger(s).Some?
    ensures Integer(t) && s == t + ScanInteger(s).value
  {
    if s[0] == 0x30 {
      t := [0x30];
    } else {
      t := DigitsSound(s);
    }
  }

  lemma FractionSound(s: bytes) returns (t: bytes)
    requires ScanFraction(s).Some?
    ensures Fraction(t) && s == t + ScanFraction(s).value
  {
    if s != [] && s[0] == 0x2E {
      var d := DigitsSound(s[1..]);
      t := [0x2E] + d;
    } else {
      t := [];
    }
  }

  lemma ExponentSound(s: bytes) returns (t: bytes)
    requires ScanExponent(s).Some?
    ensures Exponent(t) && s == t + ScanExponent(s).value
  {
    if s != [] && (s[0] == 0x65 || s[0] == 0x45) {
      if |s| >= 2 && (s[1] == 0x2B || s[1] == 0x2D) {
        var d := DigitsSound(s[2..]);
        t := s[..2] + d;
        assert t[2..] == d;
      } else {
        var d := DigitsSound(s[1..]);
        t := s[..1] + d;
        assert t[1..] == d;
      }
    } else {
      t := [];
    }
  }

  lemma Joined(a: bytes, b: bytes, c: bytes, d: bytes, rest: bytes)
    ensures a + (b + (c + (d + rest))) == a + b + c + d + rest
  {
  }

  /** The sign first, then the parts in turn. */
  lemma NumberUnfolds(s: bytes, minus: bool, a: bytes)
    requires s == Sign(minus) + a && (!minus ==> a == [] || a[0] != 0x2D)
    ensures ScanNumber(s) ==
              match ScanInteger(a)
              case None => None
              case Some(b) => (match ScanFraction(b) case None => None case Some(c) => ScanExponent(c))
  {
    hide ScanInteger, ScanFraction, ScanExponent;
    assert minus ==> s[1..] == a;
    assert !minus ==> s == a;
  }

  lemma NumberSound(s: bytes) returns (n: Numeral)
    requires ScanNumber(s).Some?
    ensures NumeralOk(n) && s == NumberText(n) + ScanNumber(s).value
  {
    var minus := s != [] && s[0] == 0x2D;
    var a := if minus then s[1..] else s;
    assert s == Sign(minus) + a;
    hide ScanNumber, ScanInteger, ScanFraction, ScanExponent, Integer, Fraction, Exponent, IsDigit;
    NumberParts(s, minus, a);
    n := PartsSound(a);
    n := n.(minus := minus);
    var rest := ScanNumber(s).value;
    Joined(Sign(minus), n.integer, n.fraction, n.exponent, rest);
  }

  lemma NumberParts(s: bytes, minus: bool, a: bytes)
    requires ScanNumber(s).Some? && minus == (s != [] && s[0] == 0x2D) && a == if minus then s[1..] else s
    ensures ScanInteger(a).Some? && ScanFraction(ScanInteger(a).value).Some?
    ensures ScanExponent(ScanFraction(ScanInteger(a).value).value) == ScanNumber(s)
  {
    hide ScanInteger, ScanFraction, ScanExponent;
  }

  lemma PartsSound(a: bytes) returns (n: Numeral)
    requires ScanInteger(a).Some? && ScanFraction(ScanInteger(a).value).Some?
    requires ScanExponent(ScanFraction(ScanInteger(a).value).value).Some?
    ensures NumeralOk(n)
    ensures a == n.integer + (n.fraction + (n.exponent + ScanExponent(ScanFraction(ScanInteger(a).value).value).value))
  {
    hide ScanInteger, ScanFraction, ScanExponent, Integer, Fraction, Exponent;
    var b := ScanInteger(a).value;
    var c := ScanFraction(b).value;
    var integer := IntegerSound(a);
    var fraction := FractionSound(b);
    var exponent := ExponentSound(c);
    n := Numeral(false, integer, fraction, exponent);
  }

  /** What may follow a number, so that scanning as far as possible stops there. */
  predicate Delimited(rest: bytes) {
    rest == [] || !(IsDigit(rest[0]) || rest[0] == 0x2E || rest[0] == 0x65 || rest[0] == 0x45)
  }

  lemma IntegerComplete(t: bytes, rest: bytes)
    requires Integer(t) && (rest == [] || !IsDigit(rest[0]))
    ensures ScanInteger(t + rest) == Some(rest)
  {
    if t[0] != 0x30 {
      DigitsComplete(t, rest);
    }
  }

  lemma FractionComplete(t: bytes, rest: bytes)
    requires Fraction(t) && (rest == [] || !(IsDigit(rest[0]) || rest[0] == 0x2E))
    ensures ScanFraction(t + rest) == Some(rest)
  {
    if t == [] {
      assert t + rest == rest;
    } else {
      assert (t + rest)[1..] == t[1..] + rest;
      DigitsComplete(t[1..], rest);
    }
  }

  lemma ExponentComplete(t: bytes, rest: bytes)
    requires Exponent(t) && Delimited(rest)
    ensures ScanExponent(t + rest) == Some(rest)
  {
    if t == [] {
      assert t + rest == rest;
    } else if Digits(t[1..]) {
      assert (t + rest)[1..] == t[1..] + rest && IsDigit(t[1..][0]);
      DigitsComplete(t[1..], rest);
    } else {
      assert (t + rest)[2..] == t[2..] + rest;
      DigitsComplete(t[2..], rest);
    }
  }

  lemma Starts(n: Numeral, rest: bytes)
    requires NumeralOk(n) && Delimited(rest)
    ensures var c := n.exponent + rest; c == [] || !(IsDigit(c[0]) || c[0] == 0x2E)
    ensures var b := n.fraction + (n.exponent + rest); b == [] || !IsDigit(b[0])
    ensures n.integer != [] && n.integer[0] != 0x2D
  {
    assert n.exponent == [] ==> n.exponent + rest == rest;
    assert n.fraction == [] ==> n.fraction + (n.exponent + rest) == n.exponent + rest;
  }

  lemma NumberComplete(n: Numeral, rest: bytes)
    requires NumeralOk(n) && Delimited(rest)
    ensures ScanNumber(NumberText(n) + rest) == Some(rest)
  {
    var c := n.exponent + rest;
    var b := n.fraction + c;
    var a := n.integer + b;
    Starts(n, rest);
    Joined(Sign(n.minus), n.integer, n.fraction, n.exponent, rest);
    assert a[0] == n.integer[0];
    NumberUnfolds(NumberText(n) + rest, n.minus, a);
    hide ScanNumber, ScanInteger, ScanFraction, ScanExponent, Integer, Fraction, Exponent, IsDigit, NumberText;
    ExponentComplete(n.exponent, rest);
    FractionComplete(n.fraction, c);
    IntegerComplete(n.integer, b);
  }

  // ------------------------------------------- values: scanned is grammatical

  lemma WordSound(s: bytes, word: bytes)
    requires ScanWord(s, word).Some?
    ensures s == word + ScanWord(s, word).value
  {
  }

  lemma PlainSound(decode: bytes -> Option<bytes>, t: bytes, room: nat) returns (j: Json)
    requires Decodes(decode) && t != [] && ScanPlain(decode, t).Some?
    ensures Shaped(decode, j, room) && t == Render(j) + ScanPlain(decode, t).value
  {
    hide ScanNumber, ScanWord, ScanString, StringToken, NumeralOk, NumberText, IsDigit;
    if t[0] == QUOTE {
      var token := StringSound(decode, t);
      j := Text(token);
    } else if t[0] == TRUE[0] {
      WordSound(t, TRUE);
      j := Word(TRUE);
    } else if t[0] == FALSE[0] {
      WordSound(t, FALSE);
      j := Word(FALSE);
    } else if t[0] == NULL[0] {
      WordSound(t, NULL);
      j := Word(NULL);
    } else {
      var n := NumberSound(t);
      j := Number(n);
    }
  }

  lemma ByteSound(s: bytes, b: byte) returns (gap: bytes)
    requires ScanByte(s, b).Some?
    ensures Gap(gap) && s == gap + [b] + ScanByte(s, b).value
  {
    gap := GapSkipped(s);
  }

  lemma {:induction false} ValueSound(decode: bytes -> Option<bytes>, s: bytes, depth: nat)
    returns (lead: bytes, j: Json)
    requires Decodes(decode) && ScanValue(decode, s, depth).Some?
    ensures Gap(lead) && Shaped(decode, j, MAX_DEPTH - depth)
    ensures s == lead + Render(j) + ScanValue(decode, s, depth).value
    decreases |s|, 1
  {
    hide *;
    ValueUnfolds(decode, s, depth);
    lead := GapSkipped(s);
    var t := SkipGap(s);
    var rest := ScanValue(decode, s, depth).value;
    if t[0] != 0x7B {
      j := PlainSound(decode, t, MAX_DEPTH - depth);
      Appended(s, lead, t, Render(j), rest);
    } else {
      var gap := GapSkipped(t[1..]);
      var u := SkipGap(t[1..]);
      if u != [] && u[0] == 0x7D {
        j := Object([], gap);
        EmptySound(decode, s, lead, t, gap, u, rest, MAX_DEPTH - depth);
      } else {
        var ms := MembersSound(decode, u, depth, {});
        j := Object(Led(decode, ms, gap, MAX_DEPTH - depth - 1), []);
        ObjectSound(decode, s, lead, t, gap, u, ms, j.members, rest, MAX_DEPTH - depth);
      }
    }
  }

  lemma Appended(s: bytes, lead: bytes, t: bytes, body: bytes, rest: bytes)
    requires s == lead + t && t == body + rest
    ensures s == lead + body + rest
  {
  }

  lemma EmptySound(decode: bytes -> Option<bytes>, s: bytes, lead: bytes, t: bytes, gap: bytes, u: bytes,
                   rest: bytes, room: nat)
    requires s == lead + t && t != [] && t[0] == 0x7B && t[1..] == gap + u && Gap(gap)
    requires u != [] && u[0] == 0x7D && u[1..] == rest
    ensures Shaped(decode, Object([], gap), room) && s == lead + Render(Object([], gap)) + rest
  {
    EmptyShaped(decode, gap, room);
    Braced(s, lead, t, gap, u, [], rest);
    assert gap + [] == gap;
  }

  lemma ObjectSound(decode: bytes -> Option<bytes>, s: bytes, lead: bytes, t: bytes, gap: bytes, u: bytes,
                    ms: seq<Member>, led: seq<Member>, rest: bytes, room: int)
    requires s == lead + t && t != [] && t[0] == 0x7B && t[1..] == gap + u && room >= 0
    requires u == RenderMembers(ms) + [0x7D] + rest && RenderMembers(led) == gap + RenderMembers(ms)
    requires led != [] && ShapedMembers(decode, led, room - 1) && Fresh(decode, led, {})
    ensures Shaped(decode, Object(led, []), room)
    ensures s == lead + Render(Object(led, [])) + rest
  {
    ObjectShaped(decode, led, room);
    Braced(s, lead, t, gap, u, RenderMembers(ms), rest);
  }

  lemma Braced(s: bytes, lead: bytes, t: bytes, gap: bytes, u: bytes, body: bytes, rest: bytes)
    requires s == lead + t && t != [] && t[0] == 0x7B && t[1..] == gap + u
    requires u == body + [0x7D] + rest || (body == [] && u != [] && u[0] == 0x7D && u[1..] == rest)
    ensures s == lead + ([0x7B] + (gap + body) + [0x7D]) + rest
  {
    assert t == [0x7B] + (gap + u);
  }

  lemma ValueUnfolds(decode: bytes -> Option<bytes>, s: bytes, depth: nat)
    requires ScanValue(decode, s, depth).Some?
    ensures depth <= MAX_DEPTH && SkipGap(s) != []
    ensures var t := SkipGap(s);
            ScanValue(decode, s, depth) ==
              if t[0] != 0x7B then ScanPlain(decode, t)
              else
                var u := SkipGap(t[1..]);
                if u != [] && u[0] == 0x7D then Some(u[1..]) else ScanMembers(decode, u, depth, {})
  {
    hide ScanPlain, ScanMembers, SkipGap;
  }

  lemma EmptyShaped(decode: bytes -> Option<bytes>, gap: bytes, room: nat)
    requires Gap(gap)
    ensures Shaped(decode, Object([], gap), room) && Render(Object([], gap)) == [0x7B] + gap + [0x7D]
  {
  }

  /** The decoded keys are distinct, and none is among the given ones. */
  ghost predicate Fresh(decode: bytes -> Option<bytes>, ms: seq<Member>, seen: set<bytes>) {
    && (forall i :: 0 <= i < |ms| ==> decode(ms[i].key).Some? && decode(ms[i].key).value !in seen)
    && (forall i, k :: 0 <= i < k < |ms| ==> decode(ms[i].key) != decode(ms[k].key))
  }

  lemma ObjectShaped(decode: bytes -> Option<bytes>, ms: seq<Member>, room: nat)
    requires ms != [] && ShapedMembers(decode, ms, room - 1) && Fresh(decode, ms, {})
    ensures Shaped(decode, Object(ms, []), room)
    ensures Render(Object(ms, [])) == [0x7B] + RenderMembers(ms) + [0x7D]
  {
    hide ShapedMembers, RenderMembers;
  }

  /** The whitespace before the first key belongs to the first member. */
  ghost function Led(decode: bytes -> Option<bytes>, ms: seq<Member>, gap: bytes, room: int): (r: seq<Member>)
    requires ms != [] && ShapedMembers(decode, ms, room) && Fresh(decode, ms, {}) && Gap(gap)
    ensures r != [] && ShapedMembers(decode, r, room) && Fresh(decode, r, {})
    ensures RenderMembers(r) == gap + RenderMembers(ms)
  {
    var m := ms[0].(lead := gap + ms[0].lead);
    var r := [m] + ms[1..];
    LedWell(decode, ms, gap, room, r);
    r
  }

  lemma LedWell(decode: bytes -> Option<bytes>, ms: seq<Member>, gap: bytes, room: int, r: seq<Member>)
    requires ms != [] && ShapedMembers(decode, ms, room) && Fresh(decode, ms, {}) && Gap(gap)
    requires r == [ms[0].(lead := gap + ms[0].lead)] + ms[1..]
    ensures ShapedMembers(decode, r, room) && Fresh(decode, r, {})
    ensures RenderMembers(r) == gap + RenderMembers(ms)
  {
    hide *;
    ShapedSplit(decode, ms, room);
    RenderSplit(ms);
    LedMember(decode, ms[0], gap, room);
    assert |r| == |ms| && r[0] == ms[0].(lead := gap + ms[0].lead) && r[1..] == ms[1..];
    FreshSame(decode, ms, r);
    ShapedSplit(decode, r, room);
    RenderSplit(r);
    AppendedTo(gap, RenderMember(ms[0]), if |ms| == 1 then [] else [0x2C] + RenderMembers(ms[1..]));
  }

  lemma AppendedTo(a: bytes, b: bytes, c: bytes)
    ensures a + b + c == a + (b + c)
  {
  }

  lemma FreshSame(decode: bytes -> Option<bytes>, ms: seq<Member>, r: seq<Member>)
    requires |ms| == |r| && (forall i :: 0 <= i < |ms| ==> r[i].key == ms[i].key) && Fresh(decode, ms, {})
    ensures Fresh(decode, r, {})
  {
  }

  lemma ShapedSplit(decode: bytes -> Option<bytes>, ms: seq<Member>, room: int)
    requires ms != []
    ensures ShapedMembers(decode, ms, room) <==>
              ShapedMember(decode, ms[0], room) && ShapedMembers(decode, ms[1..], room)
  {
    hide ShapedMember;
  }

  lemma LedMember(decode: bytes -> Option<bytes>, m: Member, gap: bytes, room: int)
    requires ShapedMember(decode, m, room) && Gap(gap)
    ensures var l := m.(lead := gap + m.lead); ShapedMember(decode, l, room) && RenderMember(l) == gap + RenderMember(m)
  {
    hide Render, Shaped, KeyOk;
  }

  lemma RenderSplit(ms: seq<Member>)
    requires ms != []
    ensures RenderMembers(ms) == RenderMember(ms[0]) + if |ms| == 1 then [] else [0x2C] + RenderMembers(ms[1..])
  {
    hide RenderMember;
  }

  lemma {:induction false} MembersSound(decode: bytes -> Option<bytes>, s: bytes, depth: nat, seen: set<bytes>)
    returns (ms: seq<Member>)
    requires Decodes(decode) && ScanMembers(decode, s, depth, seen).Some?
    ensures ms != [] && ShapedMembers(decode, ms, MAX_DEPTH - depth - 1) && Fresh(decode, ms, seen)
    ensures s == RenderMembers(ms) + [0x7D] + ScanMembers(decode, s, depth, seen).value
    decreases |s|, 0
  {
    hide ScanString, ScanByte, ScanValue, ScanMembers, SkipGap, Shaped, Render, StringToken, Gap, ShapedMembers,
      RenderMembers, RenderMember, ShapedMember;
    MembersUnfold(decode, s, depth, seen);
    var key, a := ScanString(decode, SkipGap(s)).value.0, ScanString(decode, SkipGap(s)).value.1;
    var b := ScanByte(a, 0x3A).value;
    var afterColon, j := ValueSound(decode, b, depth + 1);
    var c := ScanValue(decode, b, depth + 1).value;
    var d := SkipGap(c);
    var m := MemberSound(decode, s, key, a, b, afterColon, j, c, MAX_DEPTH - depth - 1);
    var rest := ScanMembers(decode, s, depth, seen).value;
    if d != [] && d[0] == 0x7D {
      ms := [m];
      OneMember(decode, m, MAX_DEPTH - depth - 1);
      assert d == [0x7D] + rest;
    } else {
      var e := ScanByte(d, 0x2C).value;
      Comma(c);
      var more := MembersSound(decode, e, depth, seen + {key});
      ms := [m] + more;
      MoreMembers(decode, m, more, MAX_DEPTH - depth - 1);
      FreshPlus(decode, m, more, seen, key);
      assert d == [0x2C] + (RenderMembers(more) + [0x7D] + rest);
    }
  }

  lemma FreshPlus(decode: bytes -> Option<bytes>, m: Member, more: seq<Member>, seen: set<bytes>, key: bytes)
    requires decode(m.key) == Some(key) && key !in seen && Fresh(decode, more, seen + {key})
    ensures Fresh(decode, [m] + more, seen)
  {
    var ms := [m] + more;
    assert forall i :: 1 <= i < |ms| ==> ms[i] == more[i - 1];
  }

  lemma MembersUnfold(decode: bytes -> Option<bytes>, s: bytes, depth: nat, seen: set<bytes>)
    requires ScanMembers(decode, s, depth, seen).Some?
    ensures ScanString(decode, SkipGap(s)).Some?
    ensures var (key, a) := ScanString(decode, SkipGap(s)).value;
            && key in KNOWN && key !in seen
            && ScanByte(a, 0x3A).Some?
            && var b := ScanByte(a, 0x3A).value;
            && |b| < |s| && ScanValue(decode, b, depth + 1).Some?
            && var c := ScanValue(decode, b, depth + 1).value;
            && var d := SkipGap(c);
            if d != [] && d[0] == 0x7D then ScanMembers(decode, s, depth, seen) == Some(d[1..])
            else
              && ScanByte(d, 0x2C).Some? && |ScanByte(d, 0x2C).value| < |s|
              && ScanMembers(decode, s, depth, seen)
                 == ScanMembers(decode, ScanByte(d, 0x2C).value, depth, seen + {key})
  {
    hide ScanString, ScanByte, ScanValue, SkipGap, KNOWN;
  }

  lemma KnownNames(name: bytes)
    ensures name in KNOWN <==> Named(name)
  {
    hide Ascii;
  }

  /** One scanned member, with the whitespace that the scanner passed over. */
  lemma MemberSound(decode: bytes -> Option<bytes>, s: bytes, key: bytes, a: bytes, b: bytes, afterColon: bytes,
                    j: Json, c: bytes, room: int) returns (m: Member)
    requires Decodes(decode) && ScanString(decode, SkipGap(s)) == Some((key, a)) && key in KNOWN
    requires ScanByte(a, 0x3A) == Some(b) && b == afterColon + Render(j) + c
    requires Gap(afterColon) && Shaped(decode, j, room)
    ensures ShapedMember(decode, m, room) && decode(m.key) == Some(key)
    ensures s == RenderMember(m) + SkipGap(c)
  {
    KnownNames(key);
    hide ScanString, ScanByte, SkipGap, Shaped, Render, StringToken, Gap, KNOWN, Named;
    var lead := GapSkipped(s);
    var token := StringSound(decode, SkipGap(s));
    var beforeColon := ByteSound(a, 0x3A);
    var trail := GapSkipped(c);
    m := Member(lead, token, beforeColon, afterColon, j, trail);
    MemberReads(s, m, a, b, c, SkipGap(c), SkipGap(s));
  }

  /** No gap is left before the comma once one was skipped. */
  lemma Comma(c: bytes)
    requires ScanByte(SkipGap(c), 0x2C).Some?
    ensures SkipGap(c) == [0x2C] + ScanByte(SkipGap(c), 0x2C).value
  {
    var gap := GapSkipped(c);
    var d := SkipGap(c);
    assert SkipGap(d) == d;
  }

  lemma MemberReads(s: bytes, m: Member, a: bytes, b: bytes, c: bytes, d: bytes, t: bytes)
    requires s == m.lead + t && t == m.key + a && a == m.beforeColon + [0x3A] + b
    requires b == m.afterColon + Render(m.value) + c && c == m.trail + d
    ensures s == RenderMember(m) + d
  {
    hide Render;
  }

  lemma OneMember(decode: bytes -> Option<bytes>, m: Member, room: int)
    requires ShapedMember(decode, m, room)
    ensures ShapedMembers(decode, [m], room) && RenderMembers([m]) == RenderMember(m)
  {
    hide RenderMember, ShapedMember;
    assert [m][1..] == [];
    assert RenderMember(m) + [] == RenderMember(m);
  }

  lemma MoreMembers(decode: bytes -> Option<bytes>, m: Member, more: seq<Member>, room: int)
    requires more != [] && ShapedMember(decode, m, room) && ShapedMembers(decode, more, room)
    ensures ShapedMembers(decode, [m] + more, room)
    ensures RenderMembers([m] + more) == RenderMember(m) + ([0x2C] + RenderMembers(more))
  {
    hide RenderMember, ShapedMember;
    assert ([m] + more)[1..] == more;
  }

  // --------------------------------------- values: grammatical is scanned

  lemma WordComplete(decode: bytes -> Option<bytes>, text: bytes, rest: bytes)
    requires text == TRUE || text == FALSE || text == NULL
    ensures ScanPlain(decode, text + rest) == Some(rest)
  {
    assert (text + rest)[..|text|] == text && (text + rest)[|text|..] == rest;
  }

  lemma PlainComplete(decode: bytes -> Option<bytes>, j: Json, rest: bytes, room: int)
    requires !j.Object? && Shaped(decode, j, room) && Delimited(rest)
    ensures var t := Render(j) + rest;
            Render(j) != [] && !White(t[0]) && t[0] != 0x7B && ScanPlain(decode, t) == Some(rest)
  {
    hide ScanNumber, ScanString, NumberText, NumeralOk, Delimited, ScanWord;
    match j
    case Text(token) =>
      StringComplete(decode, token, rest);
    case Number(n) =>
      NumberComplete(n, rest);
      NumberStart(n);
    case Word(text) =>
      WordComplete(decode, text, rest);
  }

  lemma NumberStart(n: Numeral)
    requires NumeralOk(n)
    ensures NumberText(n) != [] && (NumberText(n)[0] == 0x2D || IsDigit(NumberText(n)[0]))
  {
  }

  lemma ByteComplete(gap: bytes, b: byte, rest: bytes)
    requires Gap(gap) && !White(b)
    ensures ScanByte(gap + [b] + rest, b) == Some(rest)
  {
    assert gap + [b] + rest == gap + ([b] + rest);
    SkipsGap(gap, [b] + rest);
  }

  /** Whitespace or a structural character ends a number. */
  lemma GapDelimits(gap: bytes, b: byte, rest: bytes)
    requires Gap(gap) && (b == 0x7D || b == 0x2C)
    ensures Delimited(gap + [b] + rest) && SkipGap(gap + [b] + rest) == [b] + rest
  {
    assert gap + [b] + rest == gap + ([b] + rest);
    SkipsGap(gap, [b] + rest);
  }

  lemma ValueFolds(decode: bytes -> Option<bytes>, lead: bytes, t: bytes, depth: nat)
    requires Gap(lead) && t != [] && !White(t[0]) && depth <= MAX_DEPTH
    ensures ScanValue(decode, lead + t, depth) ==
              if t[0] != 0x7B then ScanPlain(decode, t)
              else
                var u := SkipGap(t[1..]);
                if u != [] && u[0] == 0x7D then Some(u[1..]) else ScanMembers(decode, u, depth, {})
  {
    SkipsGap(lead, t);
    hide ScanPlain, ScanMembers, SkipGap;
  }

  lemma {:induction false} ValueComplete(decode: bytes -> Option<bytes>, lead: bytes, j: Json, rest: bytes, depth: nat)
    requires Gap(lead) && Shaped(decode, j, MAX_DEPTH - depth) && Delimited(rest)
    ensures ScanValue(decode, lead + Render(j) + rest, depth) == Some(rest)
    decreases j, 1
  {
    hide ScanPlain, ScanMembers, ScanValue, ShapedMembers, RenderMembers, Gap, SkipGap, Delimited, White;
    var t := Render(j) + rest;
    assert lead + Render(j) + rest == lead + t;
    if !j.Object? {
      PlainComplete(decode, j, rest, MAX_DEPTH - depth);
      ValueFolds(decode, lead, t, depth);
    } else if j.members == [] {
      EmptyComplete(decode, lead, j.gap, rest, depth);
    } else {
      var u := RenderMembers(j.members) + [0x7D] + rest;
      assert t == [0x7B] + u;
      ShapedFresh(decode, j.members, MAX_DEPTH - depth - 1);
      FirstShaped(decode, j.members, MAX_DEPTH - depth - 1);
      MembersComplete(decode, j.members, rest, depth, {});
      ObjectFolds(decode, lead, j.members, u, depth);
    }
  }

  lemma FirstShaped(decode: bytes -> Option<bytes>, ms: seq<Member>, room: int)
    requires ms != [] && ShapedMembers(decode, ms, room)
    ensures Gap(ms[0].lead) && StringToken(ms[0].key)
  {
    hide Shaped, Characters, KNOWN;
  }

  lemma EmptyComplete(decode: bytes -> Option<bytes>, lead: bytes, gap: bytes, rest: bytes, depth: nat)
    requires Gap(lead) && Gap(gap) && depth <= MAX_DEPTH
    ensures ScanValue(decode, lead + ([0x7B] + gap + [0x7D] + rest), depth) == Some(rest)
  {
    var t := [0x7B] + gap + [0x7D] + rest;
    assert t[1..] == gap + [0x7D] + rest;
    GapDelimits(gap, 0x7D, rest);
    ValueFolds(decode, lead, t, depth);
  }

  /** The members are scanned from the gap before the first key on. */
  lemma ObjectFolds(decode: bytes -> Option<bytes>, lead: bytes, ms: seq<Member>, u: bytes, depth: nat)
    requires Gap(lead) && depth <= MAX_DEPTH && ms != [] && Gap(ms[0].lead)
    requires RenderMembers(ms) <= u && StringToken(ms[0].key)
    ensures ScanValue(decode, lead + ([0x7B] + u), depth) == ScanMembers(decode, u, depth, {})
  {
    var t := [0x7B] + u;
    assert t[1..] == u;
    RenderSplit(ms);
    var rest := u[|ms[0].lead|..];
    KeyFirst(ms[0], u);
    SkipsGap(ms[0].lead, rest);
    ValueFolds(decode, lead, t, depth);
    hide ScanValue, RenderMembers, RenderMember, StringToken;
    MembersSkip(decode, u, rest, depth);
  }

  lemma KeyFirst(m: Member, u: bytes)
    requires RenderMember(m) <= u && StringToken(m.key)
    ensures u == m.lead + u[|m.lead|..] && u[|m.lead|..] != [] && u[|m.lead|..][0] == QUOTE
  {
    hide Render, Characters;
    assert RenderMember(m)[..|m.lead|] == m.lead;
    assert RenderMember(m)[|m.lead|] == m.key[0];
  }

  lemma MembersSkip(decode: bytes -> Option<bytes>, u: bytes, rest: bytes, depth: nat)
    requires SkipGap(u) == rest && rest != [] && !White(rest[0])
    ensures ScanMembers(decode, u, depth, {}) == ScanMembers(decode, rest, depth, {})
  {
    hide ScanString, ScanByte, ScanValue;
    assert SkipGap(rest) == rest;
  }

  lemma {:induction false} ShapedFresh(decode: bytes -> Option<bytes>, ms: seq<Member>, room: int)
    requires ShapedMembers(decode, ms, room)
    requires forall i, k :: 0 <= i < k < |ms| ==> decode(ms[i].key) != decode(ms[k].key)
    ensures Fresh(decode, ms, {})
    decreases |ms|
  {
    if ms != [] {
      hide Shaped, KNOWN;
      ShapedFresh(decode, ms[1..], room);
      assert forall i :: 1 <= i < |ms| ==> ms[i] == ms[1..][i - 1];
    }
  }

  lemma MembersFold(decode: bytes -> Option<bytes>, s: bytes, depth: nat, seen: set<bytes>,
                    key: bytes, a: bytes, b: bytes, c: bytes)
    requires ScanString(decode, SkipGap(s)) == Some((key, a)) && key in KNOWN && key !in seen
    requires ScanByte(a, 0x3A) == Some(b) && ScanValue(decode, b, depth + 1) == Some(c)
    ensures var d := SkipGap(c);
            ScanMembers(decode, s, depth, seen) ==
              if d != [] && d[0] == 0x7D then Some(d[1..])
              else match ScanByte(d, 0x2C)
                case None => None
                case Some(e) => ScanMembers(decode, e, depth, seen + {key})
  {
    hide ScanString, ScanByte, ScanValue, SkipGap, KNOWN;
  }

  /** Scanning one member up to what follows its value. */
  lemma MemberComplete(decode: bytes -> Option<bytes>, m: Member, after: bytes, room: int)
    requires ShapedMember(decode, m, room)
    ensures var b := m.afterColon + Render(m.value) + (m.trail + after);
            var a := m.beforeColon + [0x3A] + b;
            && ScanString(decode, SkipGap(RenderMember(m) + after)) == Some((decode(m.key).value, a))
            && ScanByte(a, 0x3A) == Some(b)
  {
    hide Render, Shaped, Characters;
    var b := m.afterColon + Render(m.value) + (m.trail + after);
    var a := m.beforeColon + [0x3A] + b;
    assert RenderMember(m) + after == m.lead + (m.key + a);
    SkipsGap(m.lead, m.key + a);
    StringComplete(decode, m.key, a);
    ByteComplete(m.beforeColon, 0x3A, b);
  }

  lemma HeadFacts(decode: bytes -> Option<bytes>, ms: seq<Member>, room: int, seen: set<bytes>)
    requires ms != [] && ShapedMembers(decode, ms, room) && Fresh(decode, ms, seen)
    ensures ShapedMember(decode, ms[0], room) && Shaped(decode, ms[0].value, room)
    ensures Gap(ms[0].trail) && Gap(ms[0].afterColon)
    ensures decode(ms[0].key).Some? && decode(ms[0].key).value in KNOWN && decode(ms[0].key).value !in seen
    ensures ShapedMembers(decode, ms[1..], room) && Fresh(decode, ms[1..], seen + {decode(ms[0].key).value})
  {
    FreshRest(decode, ms, seen);
    hide Shaped, Characters, KNOWN;
  }

  lemma {:induction false} MembersComplete(decode: bytes -> Option<bytes>, ms: seq<Member>, rest: bytes,
                                           depth: nat, seen: set<bytes>)
    requires ms != [] && ShapedMembers(decode, ms, MAX_DEPTH - depth - 1) && Fresh(decode, ms, seen)
    ensures ScanMembers(decode, RenderMembers(ms) + [0x7D] + rest, depth, seen) == Some(rest)
    decreases ms, 0
  {
    hide *;
    var m, last := ms[0], |ms| == 1;
    var more := if last then [] else [0x2C] + RenderMembers(ms[1..]);
    var after := more + [0x7D] + rest;
    RenderSplit(ms);
    HeadFacts(decode, ms, MAX_DEPTH - depth - 1, seen);
    MembersText(RenderMember(m), more, rest);
    MemberComplete(decode, m, after, MAX_DEPTH - depth - 1);
    var b := m.afterColon + Render(m.value) + (m.trail + after);
    var e := if last then rest else RenderMembers(ms[1..]) + [0x7D] + rest;
    MembersText([0x2C], if last then [] else RenderMembers(ms[1..]), rest);
    assert after == [if last then 0x7D else 0x2C] + e;
    TrailDelimits(m.trail, if last then 0x7D else 0x2C, e, after);
    ValueComplete(decode, m.afterColon, m.value, m.trail + after, depth + 1);
    MembersFold(decode, RenderMember(m) + after, depth, seen, decode(m.key).value,
                m.beforeColon + [0x3A] + b, b, m.trail + after);
    if !last {
      MembersComplete(decode, ms[1..], rest, depth, seen + {decode(m.key).value});
    }
  }

  lemma MembersText(first: bytes, more: bytes, rest: bytes)
    ensures first + more + [0x7D] + rest == first + (more + [0x7D] + rest)
  {
  }

  lemma FreshRest(decode: bytes -> Option<bytes>, ms: seq<Member>, seen: set<bytes>)
    requires ms != [] && Fresh(decode, ms, seen)
    ensures Fresh(decode, ms[1..], seen + {decode(ms[0].key).value})
  {
    assert forall i :: 0 <= i < |ms| - 1 ==> ms[1..][i] == ms[i + 1];
  }

  lemma TrailDelimits(trail: bytes, b: byte, rest: bytes, after: bytes)
    requires Gap(trail) && (b == 0x7D || b == 0x2C) && after == [b] + rest
    ensures Delimited(trail + after) && SkipGap(trail + after) == after
    ensures b == 0x2C ==> ScanByte(after, 0x2C) == Some(rest)
  {
    assert trail + after == trail + [b] + rest;
    GapDelimits(trail, b, rest);
    assert [] + [b] + rest == after;
    ByteComplete([], b, rest);
  }

  /** The scanner accepts exactly the documents of the grammar: greedy scanning of
      numbers and strings loses none, and nothing else gets through. */
  lemma ShapeExact(decode: bytes -> Option<bytes>, raw: bytes)
    requires Decodes(decode)
    ensures StrictShape(decode, raw) <==> Document(decode, raw)
  {
    hide Shaped, Render, ScanValue, Gap, SkipGap;
    if StrictShape(decode, raw) {
      var lead, j := ValueSound(decode, raw, 0);
      var trail := GapSkipped(ScanValue(decode, raw, 0).value);
      assert trail + [] == trail;
      assert raw == lead + Render(j) + trail;
    }
    if Document(decode, raw) {
      var lead, j, trail :|
        Gap(lead) && Gap(trail) && Shaped(decode, j, 8) && raw == lead + Render(j) + trail;
      TrailEnds(trail);
      ValueComplete(decode, lead, j, trail, 0);
    }
  }

  lemma TrailEnds(trail: bytes)
    requires Gap(trail)
    ensures Delimited(trail) && SkipGap(trail) == []
  {
    assert trail + [] == trail;
    SkipsGap(trail, []);
  }
}
