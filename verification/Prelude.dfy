/** Vocabulary shared by every component model: outcomes, bytes, text and the few
    sequence facts that several proofs need. A byte is an integer below 256, and a
    text is its bytes; decimal numbers and UTF-8 are defined here once, since the
    parsers and printers of several components read and write them. */
module Prelude {

  datatype Option<+T> = None | Some(value: T) {
    predicate IsFailure() {
      None?
    }
    function PropagateFailure<U>(): Option<U>
      requires None?
    {
      None
    }
    function Extract(): T
      requires Some?
    {
      value
    }
  }

  datatype Result<+T, +E> = Ok(value: T) | Err(error: E) {
    predicate IsFailure() {
      Err?
    }
    function PropagateFailure<U>(): Result<U, E>
      requires Err?
    {
      Err(error)
    }
    function Extract(): T
      requires Ok?
    {
      value
    }
  }

  type byte = b: int | 0 <= b < 0x100
  type bytes = seq<byte>

  const SLASH: byte := 0x2F
  const SPACE: byte := 0x20
  const NEWLINE: byte := 0x0A

  /** The bytes of a text constant; every constant in the models is ASCII. */
  function Ascii(text: string): (r: bytes)
    ensures |r| == |text|
  {
    seq(|text|, i requires 0 <= i < |text| => text[i] as int % 0x100)
  }

  function Repeat(b: byte, n: nat): (r: bytes)
    ensures |r| == n && forall i :: 0 <= i < n ==> r[i] == b
  {
    seq(n, _ => b)
  }

  predicate AllZero(s: bytes) {
    forall i :: 0 <= i < |s| ==> s[i] == 0
  }

  function Min(a: nat, b: nat): nat {
    if a <= b then a else b
  }

  function Sum(s: seq<nat>): nat {
    if s == [] then 0 else Sum(s[..|s| - 1]) + s[|s| - 1]
  }

  lemma {:induction false} SumAppend(a: seq<nat>, b: seq<nat>)
    ensures Sum(a + b) == Sum(a) + Sum(b)
  {
    if b == [] {
      assert a + b == a;
    } else {
      assert (a + b)[..|a + b| - 1] == a + b[..|b| - 1];
      SumAppend(a, b[..|b| - 1]);
    }
  }

  /** The concatenation of a sequence of pieces. */
  function Flatten<T>(pieces: seq<seq<T>>): seq<T> {
    if pieces == [] then [] else pieces[0] + Flatten(pieces[1..])
  }

  lemma {:induction false} FlattenAppend<T>(a: seq<seq<T>>, b: seq<seq<T>>)
    ensures Flatten(a + b) == Flatten(a) + Flatten(b)
  {
    if a == [] {
      assert a + b == b;
    } else {
      assert (a + b)[1..] == a[1..] + b;
      FlattenAppend(a[1..], b);
    }
  }

  /** The first position of `b`, or the length when it does not occur. */
  function Find(s: bytes, b: byte): (k: nat)
    ensures k <= |s| && (k < |s| ==> s[k] == b)
    ensures forall i :: 0 <= i < k ==> s[i] != b
  {
    if s == [] || s[0] == b then 0 else 1 + Find(s[1..], b)
  }

  lemma FindIs(s: bytes, b: byte, k: nat)
    requires k <= |s| && (k < |s| ==> s[k] == b)
    requires forall i :: 0 <= i < k ==> s[i] != b
    ensures Find(s, b) == k
  {
    var f := Find(s, b);
    assert f < |s| ==> s[f] == b;
  }

  function HasPrefix(s: bytes, p: bytes): bool {
    |p| <= |s| && s[..|p|] == p
  }

  function HasSuffix(s: bytes, p: bytes): bool {
    |p| <= |s| && s[|s| - |p|..] == p
  }

  predicate IsDigit(b: byte) {
    0x30 <= b <= 0x39
  }

  function DecimalText(n: nat): (t: bytes)
    ensures |t| >= 1 && forall i :: 0 <= i < |t| ==> IsDigit(t[i])
  {
    if n < 10 then [0x30 + n] else DecimalText(n / 10) + [0x30 + n % 10]
  }

  function DecimalValue(t: bytes): nat
    requires forall i :: 0 <= i < |t| ==> IsDigit(t[i])
  {
    if t == [] then 0
    else
      assert IsDigit(t[|t| - 1]);
      10 * DecimalValue(t[..|t| - 1]) + (t[|t| - 1] as int - 0x30)
  }

  lemma {:induction false} DecimalRoundTrip(n: nat)
    ensures DecimalValue(DecimalText(n)) == n
  {
    var t := DecimalText(n);
    if n < 10 {
      assert t[..0] == [];
    } else {
      DecimalRoundTrip(n / 10);
      assert t[..|t| - 1] == DecimalText(n / 10);
    }
  }

  predicate AllDigits(t: bytes) {
    t != [] && forall i :: 0 <= i < |t| ==> IsDigit(t[i])
  }

  lemma DecimalDigits(n: nat)
    ensures AllDigits(DecimalText(n)) && DecimalValue(DecimalText(n)) == n
  {
    DecimalRoundTrip(n);
  }

  /** Lower-case hexadecimal text of exactly `length` digits. */
  predicate IsHash(s: bytes, length: nat) {
    |s| == length && forall i :: 0 <= i < |s| ==> IsDigit(s[i]) || 0x61 <= s[i] <= 0x66
  }

  // Unicode classes over encoded text. `Space` is White_Space, the class that
  // `str::trim` removes; `HasControl` looks for a scalar of class Cc.
  predicate Space(c: bytes) {
    (|c| == 1 && (0x09 <= c[0] <= 0x0D || c[0] == 0x20))
    || (|c| == 2 && c[0] == 0xC2 && (c[1] == 0x85 || c[1] == 0xA0))
    || (|c| == 3 && c[0] == 0xE1 && c[1] == 0x9A && c[2] == 0x80)
    || (|c| == 3 && c[0] == 0xE2 && c[1] == 0x80
        && (0x80 <= c[2] <= 0x8A || c[2] == 0xA8 || c[2] == 0xA9 || c[2] == 0xAF))
    || (|c| == 3 && c[0] == 0xE2 && c[1] == 0x81 && c[2] == 0x9F)
    || (|c| == 3 && c[0] == 0xE3 && c[1] == 0x80 && c[2] == 0x80)
  }

  predicate Trimmed(s: bytes) {
    forall n :: 1 <= n <= 3 && n <= |s| ==> !Space(s[..n]) && !Space(s[|s| - n..])
  }

  predicate HasControl(s: bytes) {
    exists i :: 0 <= i < |s| && ControlAt(s, i)
  }

  predicate ControlAt(s: bytes, i: nat)
    requires i < |s|
  {
    s[i] < 0x20 || s[i] == 0x7F
    || (s[i] == 0xC2 && i + 1 < |s| && 0x80 <= s[i + 1] < 0xA0)
  }

  // UTF-8 well-formedness, as `str::from_utf8` decides it (table 3-7 of the
  // Unicode standard): the length of the first encoded scalar, 0 if ill-formed.
  predicate Continuation(b: byte) {
    0x80 <= b < 0xC0
  }

  function ScalarLength(s: bytes): (n: nat)
    ensures n <= 4 && n <= |s|
  {
    if |s| == 0 then 0
    else if s[0] < 0x80 then 1
    else if |s| >= 2 && 0xC2 <= s[0] <= 0xDF && Continuation(s[1]) then 2
    else if |s| >= 3 && 0xE0 <= s[0] <= 0xEF && Continuation(s[1]) && Continuation(s[2])
            && (s[0] == 0xE0 ==> s[1] >= 0xA0) && (s[0] == 0xED ==> s[1] < 0xA0) then 3
    else if |s| >= 4 && 0xF0 <= s[0] <= 0xF4 && Continuation(s[1]) && Continuation(s[2])
            && Continuation(s[3]) && (s[0] == 0xF0 ==> s[1] >= 0x90)
            && (s[0] == 0xF4 ==> s[1] < 0x90) then 4
    else 0
  }

  predicate Utf8(s: bytes) {
    s == [] || (ScalarLength(s) > 0 && Utf8(s[ScalarLength(s)..]))
  }

  /** Cutting text at an ASCII character leaves two well-formed halves, and
      joining two well-formed halves by one gives well-formed text. */
  lemma {:induction false} Utf8Cut(a: bytes, c: byte, b: bytes)
    requires c < 0x80
    ensures Utf8(a + [c] + b) <==> Utf8(a) && Utf8(b)
    decreases |a|
  {
    var s := a + [c] + b;
    if a == [] {
      assert s[1..] == b;
    } else {
      var n := ScalarLength(s);
      assert forall i :: 0 <= i < |a| ==> s[i] == a[i];
      assert s[|a|] == c;
      assert n <= |a|;
      assert ScalarLength(a) == n;
      if n > 0 {
        assert s[n..] == a[n..] + [c] + b;
        Utf8Cut(a[n..], c, b);
      }
    }
  }
}
