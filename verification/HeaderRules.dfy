/** The header blocks that the package verifier accepts, byte by byte. */
module HeaderRules {
  import opened Prelude
  import opened Package
  import opened UstarHeader

  // src/artifact/verify.rs, `read_header`, against the ustar interchange format of
  // IEEE Std 1003.1. The rules below name offsets and bytes; nothing in them is
  // shared with the reader or the printer but the notion of octal digits and UTF-8.

  /** An octal number between NULs and spaces, in a field of the block. */
  ghost predicate Number(field: bytes, v: nat) {
    v < 0x1_0000_0000_0000_0000
    && exists lead, digits, tail :: OctalShape(field, lead, digits, tail) && OctalValue(digits) == v
  }

  ghost predicate IsNumber(field: bytes) {
    exists v: nat :: Number(field, v)
  }

  /** UTF-8 text up to the first NUL, and NULs from there on. */
  predicate PaddedText(field: bytes, s: bytes) {
    |s| <= |field| && 0 !in s && Utf8(s) && field == s + Repeat(0, |field| - |s|)
  }

  /** The sum of the first `n` bytes, the eight of the checksum field counted as
      spaces. */
  function SpacedSum(b: bytes, n: nat): nat
    requires n <= |b|
  {
    if n == 0 then 0 else SpacedSum(b, n - 1) + if 148 <= n - 1 < 156 then 0x20 else b[n - 1]
  }

  predicate Framed(b: bytes)
    requires |b| == 512
  {
    && b[257..265] == [0x75, 0x73, 0x74, 0x61, 0x72, 0x00, 0x30, 0x30]
    && (forall i :: 157 <= i < 257 ==> b[i] == 0) && (forall i :: 500 <= i < 512 ==> b[i] == 0)
  }

  ghost predicate Numbered(b: bytes)
    requires |b| == 512
  {
    && Number(b[148..156], SpacedSum(b, 512)) && IsNumber(b[100..108]) && IsNumber(b[108..116])
    && IsNumber(b[116..124]) && IsNumber(b[124..136]) && IsNumber(b[136..148])
    && IsNumber(b[329..337]) && IsNumber(b[337..345])
  }

  predicate Bounded(size: nat, mode: nat) {
    size <= 512 * 1024 * 1024 && (mode == 6 * 64 + 4 * 8 + 4 || mode == 7 * 64 + 5 * 8 + 5)
  }

  /** The name that the two text fields give. */
  predicate Named(b: bytes, name: bytes)
    requires |b| == 512
  {
    var last := b[..Find(b[..100], 0)];
    var first := b[345..345 + Find(b[345..500], 0)];
    && PaddedText(b[..100], last) && PaddedText(b[345..500], first)
    && name == if first == [] then last else first + [0x2F] + last
  }

  lemma {:induction false} SpacedIs(b: bytes, c: bytes, n: nat)
    requires |b| == |c| == 512 && n <= 512
    requires forall i :: 0 <= i < 512 ==> c[i] == if 148 <= i < 156 then 0x20 else b[i]
    ensures SpacedSum(b, n) == ByteSum(c[..n])
  {
    if n > 0 {
      SpacedIs(b, c, n - 1);
      assert c[..n][..n - 1] == c[..n - 1];
    }
  }

  lemma SumIs(b: bytes)
    requires |b| == 512
    ensures ByteSum(Blanked(b)) == SpacedSum(b, 512) < 0x1_0000_0000_0000_0000
  {
    SpacedIs(b, Blanked(b), 512);
    assert Blanked(b)[..512] == Blanked(b);
  }

  lemma NumberIs(field: bytes, v: nat)
    ensures Octal(field) == Ok(v) <==> Number(field, v)
  {
    OctalExact(field, v);
    hide OctalShape, OctalValue;
  }

  lemma IsNumberIs(field: bytes)
    ensures Octal(field).Ok? <==> IsNumber(field)
  {
    hide Octal, Number;
    if Octal(field).Ok? {
      NumberIs(field, Octal(field).value);
    }
    forall v: nat | Number(field, v) ensures Octal(field).Ok? {
      NumberIs(field, v);
    }
  }

  lemma TextIs(field: bytes)
    ensures CString(field).Ok? <==> PaddedText(field, field[..Find(field, 0)])
    ensures CString(field).Ok? ==> CString(field).value == field[..Find(field, 0)]
  {
    hide Utf8;
    CStringExact(field, field[..Find(field, 0)]);
  }

  lemma FramedIs(b: bytes)
    requires |b| == 512
    ensures FramedAsUstar(b) <==> Framed(b)
  {
    assert b[257..265] == b[257..263] + b[263..265];
    assert b[257..265][..6] == b[257..263] && b[257..265][6..] == b[263..265];
    assert forall i :: 157 <= i < 257 ==> b[i] == b[157..257][i - 157];
    assert forall i :: 500 <= i < 512 ==> b[i] == b[500..512][i - 500];
  }

  lemma NumberedIs(b: bytes)
    requires |b| == 512
    ensures Numbered(b) <==>
            Octal(b[148..156]) == Ok(ByteSum(Blanked(b))) && Octal(b[100..108]).Ok? && Octal(b[124..136]).Ok?
            && SpareFieldsOk(b)
  {
    hide Octal, Number, IsNumber, ByteSum, SpacedSum;
    SumIs(b);
    NumberIs(b[148..156], SpacedSum(b, 512));
    IsNumberIs(b[100..108]);
    IsNumberIs(b[108..116]);
    IsNumberIs(b[116..124]);
    IsNumberIs(b[124..136]);
    IsNumberIs(b[136..148]);
    IsNumberIs(b[329..337]);
    IsNumberIs(b[337..345]);
  }

  lemma NamedIs(b: bytes, name: bytes)
    requires |b| == 512
    ensures Named(b, name) <==>
            CString(b[..100]).Ok? && CString(b[345..500]).Ok?
            && name == Rejoin(CString(b[345..500]).value, CString(b[..100]).value)
  {
    hide CString, PaddedText;
    TextIs(b[..100]);
    TextIs(b[345..500]);
    var k, m := Find(b[..100], 0), Find(b[345..500], 0);
    assert b[..100][..k] == b[..k] && b[345..500][..m] == b[345..345 + m];
  }

  /** A block is a header exactly when its type flag is a NUL or '0', the magic,
      version and zero areas are literal, every numeric field is an octal number and
      the checksum field the sum of the block, and size, mode and name are as read. */
  lemma HeaderExact(b: bytes, h: Header)
    requires |b| == 512
    ensures ParseBlock(b) == Ok(h) <==>
            (b[156] == 0 || b[156] == 0x30) && Framed(b) && Numbered(b)
            && Number(b[124..136], h.size) && Number(b[100..108], h.mode) && Bounded(h.size, h.mode)
            && Named(b, h.name)
  {
    hide Octal, CString, SpareFieldsOk, FramedAsUstar, ByteSum, Named, Number, Numbered, Framed, Rejoin;
    FramedIs(b);
    NumberedIs(b);
    NamedIs(b, h.name);
    NumberIs(b[124..136], h.size);
    NumberIs(b[100..108], h.mode);
  }

  /** Which error a refused block gets. */
  lemma HeaderErrors(b: bytes)
    requires |b| == 512
    ensures ParseBlock(b) == Err(EntryTypeForbidden) <==> b[156] != 0 && b[156] != 0x30
    ensures ParseBlock(b) == Err(EntryInvalid) <==>
            (b[156] == 0 || b[156] == 0x30) && Framed(b) && Numbered(b)
            && forall size: nat, mode: nat :: Number(b[124..136], size) && Number(b[100..108], mode) ==> !Bounded(size, mode)
    ensures ParseBlock(b).Err? ==> ParseBlock(b).error in {EntryTypeForbidden, EntryInvalid, ArchiveInvalid}
  {
    hide Octal, CString, SpareFieldsOk, FramedAsUstar, ByteSum, Number, Numbered, Framed, Rejoin;
    FramedIs(b);
    NumberedIs(b);
    forall v: nat ensures Number(b[124..136], v) <==> Octal(b[124..136]) == Ok(v) {
      NumberIs(b[124..136], v);
    }
    forall v: nat ensures Number(b[100..108], v) <==> Octal(b[100..108]) == Ok(v) {
      NumberIs(b[100..108], v);
    }
  }

  lemma {:induction false} SumDiffers(b: bytes, c: bytes, i: nat, n: nat)
    requires |b| == |c| && i < |b| && n <= |b| && !(148 <= i < 156)
    requires forall j :: 0 <= j < |b| && j != i ==> b[j] == c[j]
    ensures SpacedSum(c, n) + (if i < n then b[i] else 0) == SpacedSum(b, n) + (if i < n then c[i] else 0)
  {
    if n > 0 {
      SumDiffers(b, c, i, n - 1);
    }
  }

  /** Changing any one byte outside the checksum field makes an accepted block
      rejected. */
  lemma OneByteRejected(b: bytes, c: bytes, i: nat)
    requires |b| == |c| == 512 && i < 512 && !(148 <= i < 156) && b[i] != c[i]
    requires forall j :: 0 <= j < 512 && j != i ==> b[j] == c[j]
    requires ParseBlock(b).Ok?
    ensures ParseBlock(c).Err?
  {
    hide Octal, CString, SpareFieldsOk, FramedAsUstar, ByteSum, Rejoin, SpacedSum;
    SumIs(b);
    SumIs(c);
    SumDiffers(b, c, i, 512);
    assert b[148..156] == c[148..156];
  }
}
