/** Text by its Unicode scalar values. */
module TextRules {
  import opened Prelude

  // What the byte-wise text checks decide, in terms of the scalars that UTF-8
  // encodes: well-formedness, white space, control characters, and hexadecimal.

  predicate Scalar(c: nat) {
    c < 0xD800 || 0xE000 <= c < 0x11_0000
  }

  predicate Scalars(cs: seq<nat>) {
    forall c <- cs :: Scalar(c)
  }

  function Encoded(c: nat): (s: bytes)
    requires Scalar(c)
    ensures 1 <= |s| <= 4 && !Continuation(s[0]) && forall i :: 1 <= i < |s| ==> Continuation(s[i])
  {
    if c < 0x80 then [c]
    else if c < 0x800 then [0xC0 + c / 64, 0x80 + c % 64]
    else if c < 0x1_0000 then [0xE0 + c / 4096, 0x80 + c / 64 % 64, 0x80 + c % 64]
    else [0xF0 + c / 262144, 0x80 + c / 4096 % 64, 0x80 + c / 64 % 64, 0x80 + c % 64]
  }

  function EncodedAll(cs: seq<nat>): bytes
    requires Scalars(cs)
  {
    if cs == [] then [] else Encoded(cs[0]) + EncodedAll(cs[1..])
  }

  // ------------------------------------------------------------ well-formedness

  /** An encoded scalar is measured by its own length, whatever follows it. */
  lemma EncodedLength(c: nat, rest: bytes)
    requires Scalar(c)
    ensures ScalarLength(Encoded(c) + rest) == |Encoded(c)|
  {
    var s := Encoded(c) + rest;
    assert forall i :: 0 <= i < |Encoded(c)| ==> s[i] == Encoded(c)[i];
  }

  /** Where a scalar is measured, one is encoded. */
  lemma Decoded(s: bytes) returns (c: nat)
    requires ScalarLength(s) > 0
    ensures Scalar(c) && Encoded(c) == s[..ScalarLength(s)]
  {
    var n := ScalarLength(s);
    if n == 1 {
      c := s[0];
    } else if n == 2 {
      c := Decoded2(s[0], s[1]);
    } else if n == 3 {
      c := Decoded3(s[0], s[1], s[2]);
    } else {
      c := Decoded4(s[0], s[1], s[2], s[3]);
    }
  }

  lemma Decoded2(a: byte, b: byte) returns (c: nat)
    requires 0xC2 <= a <= 0xDF && Continuation(b)
    ensures Scalar(c) && Encoded(c) == [a, b]
  {
    c := (a - 0xC0) * 64 + (b - 0x80);
  }

  lemma Decoded3(a: byte, b: byte, d: byte) returns (c: nat)
    requires 0xE0 <= a <= 0xEF && Continuation(b) && Continuation(d)
    requires (a == 0xE0 ==> b >= 0xA0) && (a == 0xED ==> b < 0xA0)
    ensures Scalar(c) && Encoded(c) == [a, b, d]
  {
    c := (a - 0xE0) * 4096 + (b - 0x80) * 64 + (d - 0x80);
    assert c / 64 == (a - 0xE0) * 64 + (b - 0x80);
  }

  lemma Decoded4(a: byte, b: byte, d: byte, e: byte) returns (c: nat)
    requires 0xF0 <= a <= 0xF4 && Continuation(b) && Continuation(d) && Continuation(e)
    requires (a == 0xF0 ==> b >= 0x90) && (a == 0xF4 ==> b < 0x90)
    ensures Scalar(c) && Encoded(c) == [a, b, d, e]
  {
    c := (a - 0xF0) * 262144 + (b - 0x80) * 4096 + (d - 0x80) * 64 + (e - 0x80);
    assert c / 64 == (a - 0xF0) * 4096 + (b - 0x80) * 64 + (d - 0x80);
    assert c / 4096 == (a - 0xF0) * 64 + (b - 0x80);
  }

  lemma {:induction false} EncodedUtf8(cs: seq<nat>)
    requires Scalars(cs)
    ensures Utf8(EncodedAll(cs))
  {
    hide Encoded, ScalarLength;
    if cs != [] {
      var rest := EncodedAll(cs[1..]);
      EncodedUtf8(cs[1..]);
      EncodedLength(cs[0], rest);
      assert (Encoded(cs[0]) + rest)[|Encoded(cs[0])|..] == rest;
    }
  }

  lemma {:induction false} Utf8Decoded(s: bytes) returns (cs: seq<nat>)
    requires Utf8(s)
    ensures Scalars(cs) && EncodedAll(cs) == s
    decreases |s|
  {
    hide Encoded, ScalarLength;
    if s == [] {
      cs := [];
    } else {
      var n := ScalarLength(s);
      var c := Decoded(s);
      var rest := Utf8Decoded(s[n..]);
      cs := [c] + rest;
      assert cs[1..] == rest;
      assert s == s[..n] + s[n..];
    }
  }

  /** Well-formed text is exactly what encodes scalars. */
  lemma Utf8Exact(s: bytes)
    ensures Utf8(s) <==> exists cs :: Scalars(cs) && EncodedAll(cs) == s
  {
    if Utf8(s) {
      var cs := Utf8Decoded(s);
    }
    if cs :| Scalars(cs) && EncodedAll(cs) == s {
      EncodedUtf8(cs);
    }
  }

  // --------------------------------------------------- white space and controls

  predicate WhiteSpace(c: nat) {
    || 9 <= c <= 13 || c in [0x20, 0x85, 0xA0, 0x1680] || 0x2000 <= c <= 0x200A
    || c in [0x2028, 0x2029, 0x202F, 0x205F, 0x3000]
  }

  predicate Control(c: nat) {
    c < 0x20 || 0x7F <= c < 0xA0
  }

  lemma SpaceEncoded(c: nat)
    requires Scalar(c)
    ensures Space(Encoded(c)) <==> WhiteSpace(c)
  {
  }

  /** White space is itself the encoding of one scalar. */
  lemma SpaceIsWhole(t: bytes)
    requires Space(t)
    ensures |t| >= 1 && ScalarLength(t) == |t|
    ensures !Continuation(t[0]) && forall i :: 1 <= i < |t| ==> Continuation(t[i])
    ensures forall rest: bytes :: ScalarLength(t + rest) == |t|
  {
    forall rest: bytes ensures ScalarLength(t + rest) == |t| {
      assert forall i :: 0 <= i < |t| ==> (t + rest)[i] == t[i];
    }
  }

  lemma {:induction false} EncodedLast(cs: seq<nat>)
    requires Scalars(cs) && cs != []
    ensures Scalars(cs[..|cs| - 1]) && EncodedAll(cs) == EncodedAll(cs[..|cs| - 1]) + Encoded(cs[|cs| - 1])
  {
    hide Encoded;
    if |cs| == 1 {
      assert cs[1..] == [] && cs[..0] == [];
    } else {
      EncodedLast(cs[1..]);
      assert cs[1..][..|cs| - 2] == cs[..|cs| - 1][1..];
    }
  }

  predicate OneScalar(s: bytes, k: nat) {
    && k < |s| && !Continuation(s[k]) && forall i :: k < i < |s| ==> Continuation(s[i])
  }

  lemma OneTail(s: bytes, j: nat, k: nat)
    requires OneScalar(s, j) && OneScalar(s, k)
    ensures j == k
  {
  }

  lemma TailIs(s: bytes, k: nat)
    requires k < |s| && OneScalar(s[k..], 0)
    ensures OneScalar(s, k)
  {
    var t := s[k..];
    forall i | k < i < |s| ensures Continuation(s[i]) {
      assert t[i - k] == s[i];
    }
  }

  /** A text that ends in white space has it as its last scalar. */
  lemma SpaceAtEnd(s: bytes, n: nat, head: bytes, c: nat)
    requires Scalar(c) && s == head + Encoded(c) && 1 <= n <= |s| && Space(s[|s| - n..])
    ensures s[|s| - n..] == Encoded(c)
  {
    hide Encoded;
    SpaceIsWhole(s[|s| - n..]);
    hide Space;
    assert s[|head|..] == Encoded(c);
    TailIs(s, |s| - n);
    TailIs(s, |head|);
    OneTail(s, |s| - n, |head|);
  }

  lemma SpaceAtStart(s: bytes, n: nat, c: nat, rest: bytes)
    requires Scalar(c) && s == Encoded(c) + rest && 1 <= n <= |s| && Space(s[..n])
    ensures s[..n] == Encoded(c)
  {
    hide Encoded;
    SpaceIsWhole(s[..n]);
    EncodedLength(c, rest);
    assert s == s[..n] + s[n..];
  }

  lemma SpaceShort(t: bytes)
    requires Space(t)
    ensures 1 <= |t| <= 3
  {
  }

  predicate StartsSpaced(s: bytes) {
    exists n :: 1 <= n <= 3 && n <= |s| && Space(s[..n])
  }

  predicate EndsSpaced(s: bytes) {
    exists k :: 0 <= k < |s| && |s| <= k + 3 && Space(s[k..])
  }

  lemma StartIs(c: nat, rest: bytes)
    requires Scalar(c)
    ensures StartsSpaced(Encoded(c) + rest) <==> WhiteSpace(c)
  {
    hide Encoded, Space, WhiteSpace;
    var s := Encoded(c) + rest;
    SpaceEncoded(c);
    if StartsSpaced(s) {
      var n :| 1 <= n <= 3 && n <= |s| && Space(s[..n]);
      SpaceAtStart(s, n, c, rest);
    }
    if WhiteSpace(c) {
      SpaceShort(Encoded(c));
      assert s[..|Encoded(c)|] == Encoded(c);
    }
  }

  lemma EndIs(head: bytes, c: nat)
    requires Scalar(c)
    ensures EndsSpaced(head + Encoded(c)) <==> WhiteSpace(c)
  {
    hide Encoded, Space, WhiteSpace;
    var s := head + Encoded(c);
    SpaceEncoded(c);
    if EndsSpaced(s) {
      var k :| 0 <= k < |s| && |s| <= k + 3 && Space(s[k..]);
      SpaceAtEnd(s, |s| - k, head, c);
    }
    if WhiteSpace(c) {
      SpaceShort(Encoded(c));
      assert s[|head|..] == Encoded(c);
    }
  }

  /** Trimmed text neither starts nor ends with white space. */
  lemma TrimmedExact(cs: seq<nat>)
    requires Scalars(cs)
    ensures Trimmed(EncodedAll(cs)) <==> cs == [] || (!WhiteSpace(cs[0]) && !WhiteSpace(cs[|cs| - 1]))
  {
    hide Encoded, Space, WhiteSpace;
    if cs != [] {
      EncodedLast(cs);
      StartIs(cs[0], EncodedAll(cs[1..]));
      EndIs(EncodedAll(cs[..|cs| - 1]), cs[|cs| - 1]);
      TrimmedIs(EncodedAll(cs));
    }
    hide EncodedAll, Trimmed, StartsSpaced, EndsSpaced;
  }

  lemma TrimmedIs(s: bytes)
    ensures Trimmed(s) <==> !StartsSpaced(s) && !EndsSpaced(s)
  {
    hide Space;
    forall k | 0 <= k < |s| && |s| <= k + 3 && Trimmed(s) ensures !Space(s[k..]) {
      assert !Space(s[..|s| - k]);
      assert s[|s| - (|s| - k)..] == s[k..];
    }
  }

  lemma FirstControl(c: nat, rest: bytes)
    requires Scalar(c)
    ensures HasControl(Encoded(c) + rest) <==> Control(c) || HasControl(rest)
  {
    var e := Encoded(c);
    var s := e + rest;
    assert forall i :: 0 <= i < |rest| ==> s[|e| + i] == rest[i];
    forall i: nat | i < |rest| ensures ControlAt(s, |e| + i) <==> ControlAt(rest, i) {
    }
    OwnControl(c, rest);
    hide Encoded, ControlAt;
    if HasControl(s) && !Control(c) {
      var i :| 0 <= i < |s| && ControlAt(s, i);
      assert i >= |e|;
      assert ControlAt(rest, i - |e|);
    }
    if HasControl(rest) {
      var i :| 0 <= i < |rest| && ControlAt(rest, i);
      assert ControlAt(s, |e| + i);
    }
  }

  lemma OwnControl(c: nat, rest: bytes)
    requires Scalar(c)
    ensures Control(c) <==> exists i :: 0 <= i < |Encoded(c)| && ControlAt(Encoded(c) + rest, i)
  {
    var s := Encoded(c) + rest;
    assert forall i :: 0 <= i < |Encoded(c)| ==> s[i] == Encoded(c)[i];
    if Control(c) {
      assert ControlAt(s, 0);
    }
  }

  /** A control character is found exactly where a scalar is one. */
  lemma {:induction false} ControlExact(cs: seq<nat>)
    requires Scalars(cs)
    ensures HasControl(EncodedAll(cs)) <==> exists c <- cs :: Control(c)
  {
    hide Encoded, Control;
    if cs != [] {
      ControlExact(cs[1..]);
      FirstControl(cs[0], EncodedAll(cs[1..]));
      assert forall c :: c in cs <==> c == cs[0] || c in cs[1..];
    }
  }

  /** Lower-case hexadecimal digits, exactly `n` of them. */
  predicate HexText(s: bytes, n: nat) {
    |s| == n && forall b <- s :: 0x30 <= b <= 0x39 || 0x61 <= b <= 0x66
  }

  lemma HashIs(s: bytes, n: nat)
    ensures IsHash(s, n) <==> HexText(s, n)
  {
    if HexText(s, n) {
      forall i | 0 <= i < |s| ensures IsDigit(s[i]) || 0x61 <= s[i] <= 0x66 {
        assert s[i] in s;
      }
    }
  }

  // ------------------------------------------------------------------- decimals

  /** The decimal text of a number: its digits, with no zero in front. */
  lemma {:induction false} DecimalExact(t: bytes, n: nat)
    ensures t == DecimalText(n) <==> AllDigits(t) && DecimalValue(t) == n && (|t| > 1 ==> t[0] != 0x30)
    decreases |t|
  {
    DecimalDigits(n);
    if t == DecimalText(n) && n >= 10 {
      DecimalExact(t[..|t| - 1], n / 10);
    }
    if |t| > 1 && AllDigits(t) && DecimalValue(t) == n && t[0] != 0x30 {
      var init := t[..|t| - 1];
      assert IsDigit(t[|t| - 1]);
      DecimalExact(init, n / 10);
      assert t == init + [t[|t| - 1]];
    }
  }
}
