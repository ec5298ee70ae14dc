/** The 512-byte header block of the ustar interchange format (IEEE Std 1003.1,
    pax utility): the printer of src/artifact/build.rs and the strict reader of
    src/artifact/verify.rs, with the proof that one undoes the other. */
module UstarHeader {
  import opened Prelude
  import opened Package

  // ---------------------------------------------------------------- octal

  function Pow8(n: nat): (r: nat)
    ensures r >= 1
  {
    if n == 0 then 1 else 8 * Pow8(n - 1)
  }

  /** The digits that `{:o}` prints. */
  function OctalText(v: nat): (t: bytes)
    ensures |t| >= 1
    ensures forall i :: 0 <= i < |t| ==> 0x30 <= t[i] <= 0x37
  {
    if v < 8 then [0x30 + v] else OctalText(v / 8) + [0x30 + v % 8]
  }

  /** The number that a string of octal digits denotes. */
  function OctalValue(t: bytes): nat
    requires forall i :: 0 <= i < |t| ==> 0x30 <= t[i] <= 0x37
  {
    if t == [] then 0 else 8 * OctalValue(t[..|t| - 1]) + (t[|t| - 1] - 0x30)
  }

  lemma {:induction false} OctalTextFits(v: nat, width: nat)
    requires width >= 1
    ensures |OctalText(v)| <= width <==> v < Pow8(width)
    decreases v
  {
    if v < 8 {
      Pow8Grows(width);
    } else if width == 1 {
      assert |OctalText(v / 8)| >= 1;
    } else {
      OctalTextFits(v / 8, width - 1);
      assert v / 8 < Pow8(width - 1) <==> v < 8 * Pow8(width - 1);
    }
  }

  lemma {:induction false} Pow8Grows(width: nat)
    requires width >= 1
    ensures Pow8(width) >= 8
  {
    if width > 1 {
      Pow8Grows(width - 1);
    }
  }

  lemma {:induction false} OctalValueText(v: nat, zeros: nat)
    ensures OctalValue(Repeat(0x30, zeros) + OctalText(v)) == v
    decreases v
  {
    var t := Repeat(0x30, zeros) + OctalText(v);
    if v < 8 {
      assert t[..|t| - 1] == Repeat(0x30, zeros);
      OctalValueZeros(zeros);
    } else {
      assert t[..|t| - 1] == Repeat(0x30, zeros) + OctalText(v / 8);
      OctalValueText(v / 8, zeros);
    }
  }

  lemma {:induction false} OctalValueZeros(zeros: nat)
    ensures OctalValue(Repeat(0x30, zeros)) == 0
  {
    if zeros > 0 {
      assert Repeat(0x30, zeros)[..zeros - 1] == Repeat(0x30, zeros - 1);
      OctalValueZeros(zeros - 1);
    }
  }

  predicate Blank(b: byte) {
    b == 0 || b == SPACE
  }

  function TrimLeft(s: bytes): bytes {
    if s != [] && Blank(s[0]) then TrimLeft(s[1..]) else s
  }

  function TrimRight(s: bytes): bytes {
    if s != [] && Blank(s[|s| - 1]) then TrimRight(s[..|s| - 1]) else s
  }

  const U64_LIMIT: nat := 0x1_0000_0000_0000_0000

  /** `octal`: an optional number between NULs and spaces. Bytes that are not
      UTF-8 are not digits either, so both checks fail with the same code. */
  function Octal(field: bytes): Result<nat, Error> {
    var text := TrimRight(TrimLeft(field));
    if text == [] then Ok(0)
    else if exists i :: 0 <= i < |text| && !(0x30 <= text[i] <= 0x37) then Err(ArchiveInvalid)
    else if OctalValue(text) >= U64_LIMIT then Err(ArchiveInvalid)
    else Ok(OctalValue(text))
  }

  /** What `write_octal` leaves in a field of `width` bytes. */
  function OctalField(v: nat, width: nat): (f: bytes)
    requires |OctalText(v)| < width
    ensures |f| == width
  {
    Repeat(0x30, width - 1 - |OctalText(v)|) + OctalText(v) + [0]
  }

  function ChecksumField(v: nat): (f: bytes)
    requires |OctalText(v)| <= 6
    ensures |f| == 8
  {
    Repeat(0x30, 6 - |OctalText(v)|) + OctalText(v) + [0, SPACE]
  }

  lemma OctalReads(v: nat, zeros: nat, tail: bytes)
    requires v < U64_LIMIT && forall i :: 0 <= i < |tail| ==> Blank(tail[i])
    ensures Octal(Repeat(0x30, zeros) + OctalText(v) + tail) == Ok(v)
  {
    hide OctalValue, OctalText;
    var t := Repeat(0x30, zeros) + OctalText(v);
    assert !Blank((t + tail)[0]);
    TrimRightTail(t, tail);
    OctalValueText(v, zeros);
  }

  lemma {:induction false} TrimRightTail(t: bytes, tail: bytes)
    requires t != [] && !Blank(t[|t| - 1])
    requires forall i :: 0 <= i < |tail| ==> Blank(tail[i])
    ensures TrimRight(t + tail) == t
  {
    if tail == [] {
      assert t + tail == t;
    } else {
      assert (t + tail)[..|t + tail| - 1] == t + tail[..|tail| - 1];
      TrimRightTail(t, tail[..|tail| - 1]);
    }
  }

  /** `octal` inverts `write_octal` for every value that the field can hold. */
  lemma OctalRoundTrip(v: nat, width: nat)
    requires width >= 2 && v < Pow8(width - 1) && v < U64_LIMIT
    ensures |OctalText(v)| < width && Octal(OctalField(v, width)) == Ok(v)
  {
    OctalTextFits(v, width - 1);
    OctalReads(v, width - 1 - |OctalText(v)|, [0]);
  }

  lemma {:induction false} TrimLeftIs(s: bytes) returns (lead: bytes)
    ensures s == lead + TrimLeft(s) && AllBlank(lead) && (TrimLeft(s) != [] ==> !Blank(TrimLeft(s)[0]))
  {
    lead := [];
    if s != [] && Blank(s[0]) {
      var more := TrimLeftIs(s[1..]);
      lead := [s[0]] + more;
    }
  }

  lemma {:induction false} TrimRightIs(s: bytes) returns (tail: bytes)
    ensures s == TrimRight(s) + tail && AllBlank(tail)
  {
    tail := [];
    if s != [] && Blank(s[|s| - 1]) {
      var more := TrimRightIs(s[..|s| - 1]);
      tail := more + [s[|s| - 1]];
    }
  }

  lemma {:induction false} TrimLeftLead(lead: bytes, t: bytes)
    requires AllBlank(lead)
    ensures TrimLeft(lead + t) == TrimLeft(t)
  {
    if lead == [] {
      assert lead + t == t;
    } else {
      assert (lead + t)[1..] == lead[1..] + t;
      TrimLeftLead(lead[1..], t);
    }
  }

  predicate AllBlank(s: bytes) {
    forall i :: 0 <= i < |s| ==> s[i] == 0 || s[i] == 0x20
  }

  predicate AllOctal(t: bytes) {
    forall i :: 0 <= i < |t| ==> 0x30 <= t[i] <= 0x37
  }

  /** A field of blanks, digits and blanks. */
  predicate OctalShape(field: bytes, lead: bytes, digits: bytes, tail: bytes) {
    field == lead + digits + tail && AllBlank(lead) && AllOctal(digits) && AllBlank(tail)
  }

  /** `octal` accepts exactly the fields with octal digits between blanks whose
      value fits 64 bits, and no digits at all stand for zero. */
  lemma OctalExact(field: bytes, v: nat)
    ensures Octal(field) == Ok(v) <==>
            v < U64_LIMIT && exists lead, digits, tail :: OctalShape(field, lead, digits, tail) && OctalValue(digits) == v
  {
    var text := TrimRight(TrimLeft(field));
    var lead := TrimLeftIs(field);
    var tail := TrimRightIs(TrimLeft(field));
    assert field == lead + text + tail;
    if Octal(field) == Ok(v) {
      assert OctalShape(field, lead, text, tail);
    }
    forall lead, digits, tail | OctalShape(field, lead, digits, tail) && OctalValue(digits) < U64_LIMIT
      ensures Octal(field) == Ok(OctalValue(digits))
    {
      OctalBetween(lead, digits, tail);
    }
  }

  lemma OctalBetween(lead: bytes, digits: bytes, tail: bytes)
    requires AllBlank(lead) && AllOctal(digits) && AllBlank(tail) && OctalValue(digits) < U64_LIMIT
    ensures Octal(lead + digits + tail) == Ok(OctalValue(digits))
  {
    assert lead + digits + tail == lead + (digits + tail);
    TrimLeftLead(lead, digits + tail);
    if digits == [] {
      assert digits + tail == tail;
      TrimLeftLead(tail, []);
      assert tail + [] == tail;
    } else {
      assert (digits + tail)[0] == digits[0];
      TrimRightTail(digits, tail);
    }
  }

  lemma ChecksumRoundTrip(v: nat)
    requires v < Pow8(6)
    ensures |OctalText(v)| <= 6 && Octal(ChecksumField(v)) == Ok(v)
  {
    OctalTextFits(v, 6);
    assert Pow8(6) == 0x4_0000;
    OctalReads(v, 6 - |OctalText(v)|, [0, SPACE]);
  }

  /** A blank field, which the printer leaves for the device numbers. */
  lemma {:induction false} OctalOfZeros(n: nat)
    ensures Octal(Repeat(0, n)) == Ok(0)
  {
    if n > 0 {
      assert Repeat(0, n)[1..] == Repeat(0, n - 1);
      OctalOfZeros(n - 1);
    }
  }

  // ----------------------------------------------------- the path in a block

  /** A slash where the format lets a long path be cut in two. */
  predicate LegalCut(path: bytes, o: nat) {
    o < |path| && path[o] == SLASH && o <= 155 && |path| - o - 1 <= 100
  }

  /** The last legal cut before `end`. */
  function FindCut(path: bytes, end: nat): Option<nat>
    requires end <= |path|
  {
    if end == 0 then None
    else if LegalCut(path, end - 1) then Some(end - 1)
    else FindCut(path, end - 1)
  }

  /** The prefix and name fields, or nothing when the format has no room. */
  function CutPath(path: bytes): Option<(bytes, bytes)> {
    if |path| <= 100 then Some(([], path))
    else match FindCut(path, |path|)
      case None => None
      case Some(o) => if LegalCut(path, o) then Some((path[..o], path[o + 1..])) else None
  }

  function Rejoin(prefix: bytes, name: bytes): bytes {
    if prefix == [] then name else prefix + [SLASH] + name
  }

  lemma {:induction false} FindCutExact(path: bytes, end: nat)
    requires end <= |path|
    ensures FindCut(path, end).None? <==> forall o :: 0 <= o < end ==> !LegalCut(path, o)
    ensures FindCut(path, end).Some? ==> LegalCut(path, FindCut(path, end).value)
  {
    if end > 0 && !LegalCut(path, end - 1) {
      FindCutExact(path, end - 1);
    }
  }

  /** The printer has no header for a path exactly when it is longer than the
      name field and no slash leaves at most 155 bytes before it and at most
      100 after it; otherwise the two fields rejoin to the path. */
  lemma CutExact(path: bytes)
    ensures CutPath(path).None? <==>
              |path| > 100 && forall o :: 0 <= o < |path| ==> !LegalCut(path, o)
    ensures CutPath(path).Some? && path != [] && path[0] != SLASH ==>
              var (prefix, name) := CutPath(path).value;
              |prefix| <= 155 && |name| <= 100 && Rejoin(prefix, name) == path
  {
    FindCutExact(path, |path|);
    match FindCut(path, |path|)
    case None =>
    case Some(o) =>
      assert path == path[..o] + [SLASH] + path[o + 1..];
  }

  // ---------------------------------------------------------------- the block

  const MAGIC: bytes := [0x75, 0x73, 0x74, 0x61, 0x72, 0]
  const VERSION: bytes := [0x30, 0x30]
  const CHECKSUM: nat := 148
  const REGULAR: byte := 0x30

  function Pad(s: bytes, width: nat): (r: bytes)
    requires |s| <= width
    ensures |r| == width
  {
    s + Repeat(0, width - |s|)
  }

  predicate Fits(prefix: bytes, name: bytes, size: nat, mode: nat) {
    |prefix| <= 155 && |name| <= 100 && |OctalText(size)| < 12 && |OctalText(mode)| < 8
  }

  lemma OctalTextZero()
    ensures OctalText(0) == [0x30]
  {
  }

  /** Every byte of the block before the checksum is stamped on it. */
  function Body(prefix: bytes, name: bytes, size: nat, mode: nat): (b: bytes)
    requires Fits(prefix, name, size, mode)
    ensures |b| == 512
  {
    Pad(name, 100) + OctalField(mode, 8) + OctalField(0, 8) + OctalField(0, 8)
    + OctalField(size, 12) + OctalField(0, 12) + Repeat(SPACE, 8) + [REGULAR] + Repeat(0, 100)
    + MAGIC + VERSION + Repeat(0, 80) + Pad(prefix, 155) + Repeat(0, 12)
  }

  function ByteSum(s: bytes): (n: nat)
    ensures n <= 255 * |s|
  {
    if s == [] then 0 else ByteSum(s[..|s| - 1]) + s[|s| - 1]
  }

  /** The block with its checksum field read as spaces, as both sides sum it. */
  function Blanked(b: bytes): (r: bytes)
    requires |b| == 512
    ensures |r| == 512
  {
    b[..CHECKSUM] + Repeat(SPACE, 8) + b[CHECKSUM + 8..]
  }

  /** Six octal digits always hold the sum of 512 bytes. */
  lemma ChecksumFits(b: bytes)
    requires |b| == 512
    ensures ByteSum(b) < Pow8(6) && |OctalText(ByteSum(b))| <= 6
  {
    assert Pow8(6) == 0x4_0000;
    OctalTextFits(ByteSum(b), 6);
  }

  function Stamped(body: bytes): (b: bytes)
    requires |body| == 512
    ensures |b| == 512
  {
    ChecksumFits(body);
    body[..CHECKSUM] + ChecksumField(ByteSum(body)) + body[CHECKSUM + 8..]
  }

  /** The header of a regular file, as the printer leaves it. */
  function HeaderBlock(prefix: bytes, name: bytes, size: nat, mode: nat): (b: bytes)
    requires Fits(prefix, name, size, mode)
    ensures |b| == 512
  {
    Stamped(Body(prefix, name, size, mode))
  }

  /** Where each field of a header lies. */
  ghost predicate Layout(b: bytes, prefix: bytes, name: bytes, size: nat, mode: nat)
    requires Fits(prefix, name, size, mode)
  {
    OctalTextZero();
    && |b| == 512
    && b[..100] == Pad(name, 100)
    && b[100..108] == OctalField(mode, 8)
    && b[108..116] == OctalField(0, 8)
    && b[116..124] == OctalField(0, 8)
    && b[124..136] == OctalField(size, 12)
    && b[136..148] == OctalField(0, 12)
    && b[156] == REGULAR
    && b[157..257] == Repeat(0, 100)
    && b[257..263] == MAGIC
    && b[263..265] == VERSION
    && b[265..345] == Repeat(0, 80)
    && b[345..500] == Pad(prefix, 155)
    && b[500..512] == Repeat(0, 12)
  }

  lemma Glue(b: bytes, i: nat, j: nat)
    requires i <= j <= |b|
    ensures b[..i] + b[i..j] == b[..j]
  {
  }

  /** Fixing every field, with spaces for the checksum, fixes the block. */
  lemma LayoutBody(b: bytes, prefix: bytes, name: bytes, size: nat, mode: nat)
    requires Fits(prefix, name, size, mode) && Layout(b, prefix, name, size, mode)
    requires b[CHECKSUM..CHECKSUM + 8] == Repeat(SPACE, 8)
    ensures b == Body(prefix, name, size, mode)
  {
    Glue(b, 100, 108); Glue(b, 108, 116); Glue(b, 116, 124); Glue(b, 124, 136);
    Glue(b, 136, 148); Glue(b, 148, 156); Glue(b, 156, 157); Glue(b, 157, 257);
    Glue(b, 257, 263); Glue(b, 263, 265); Glue(b, 265, 345); Glue(b, 345, 500);
    Glue(b, 500, 512);
    assert b[156..157] == [REGULAR];
    assert b[..512] == b;
  }

  lemma PartAt(s: bytes, before: bytes, part: bytes)
    requires before + part <= s
    ensures before <= s && s[|before|..|before| + |part|] == part
  {
    assert s[..|before| + |part|] == before + part;
    assert s[|before|..|before| + |part|] == (before + part)[|before|..];
  }

  /** The printed bytes put every field where the format wants it. */
  lemma BodyLayout(prefix: bytes, name: bytes, size: nat, mode: nat)
    requires Fits(prefix, name, size, mode)
    ensures Layout(Body(prefix, name, size, mode), prefix, name, size, mode)
    ensures Body(prefix, name, size, mode)[CHECKSUM..CHECKSUM + 8] == Repeat(SPACE, 8)
  {
    var b := Body(prefix, name, size, mode);
    var s1 := Pad(name, 100);
    var s2 := s1 + OctalField(mode, 8);
    var s3 := s2 + OctalField(0, 8);
    var s4 := s3 + OctalField(0, 8);
    var s5 := s4 + OctalField(size, 12);
    var s6 := s5 + OctalField(0, 12);
    var s7 := s6 + Repeat(SPACE, 8);
    var s8 := s7 + [REGULAR];
    var s9 := s8 + Repeat(0, 100);
    var s10 := s9 + MAGIC;
    var s11 := s10 + VERSION;
    var s12 := s11 + Repeat(0, 80);
    var s13 := s12 + Pad(prefix, 155);
    assert b == s13 + Repeat(0, 12);
    PartAt(b, s13, Repeat(0, 12));
    PartAt(b, s12, Pad(prefix, 155));
    PartAt(b, s11, Repeat(0, 80));
    PartAt(b, s10, VERSION);
    PartAt(b, s9, MAGIC);
    PartAt(b, s8, Repeat(0, 100));
    PartAt(b, s7, [REGULAR]);
    assert b[156..157][0] == b[156];
    PartAt(b, s6, Repeat(SPACE, 8));
    PartAt(b, s5, OctalField(0, 12));
    PartAt(b, s4, OctalField(size, 12));
    PartAt(b, s3, OctalField(0, 8));
    PartAt(b, s2, OctalField(0, 8));
    PartAt(b, s1, OctalField(mode, 8));
    assert b[..100] == s1;
  }

  // --------------------------------------------------------------- the reader

  datatype Header = Header(name: bytes, size: nat, mode: nat)

  /** `c_string`: text up to the first NUL, and nothing but NULs after it. */
  function CString(field: bytes): Result<bytes, Error> {
    var end := Find(field, 0);
    if !AllZero(field[end..]) then Err(ArchiveInvalid)
    else if !Utf8(field[..end]) then Err(ArchiveInvalid)
    else Ok(field[..end])
  }

  predicate FramedAsUstar(b: bytes)
    requires |b| == 512
  {
    b[257..263] == MAGIC && b[263..265] == VERSION && AllZero(b[157..257]) && AllZero(b[500..512])
  }

  /** The five numeric fields that are only required to be well formed. */
  predicate SpareFieldsOk(b: bytes)
    requires |b| == 512
  {
    Octal(b[108..116]).Ok? && Octal(b[116..124]).Ok? && Octal(b[136..148]).Ok?
    && Octal(b[329..337]).Ok? && Octal(b[337..345]).Ok?
  }

  /** What `read_header` makes of one block that is not all zero. */
  function ParseBlock(b: bytes): Result<Header, Error>
    requires |b| == 512
  {
    if b[156] != 0 && b[156] != REGULAR then Err(EntryTypeForbidden)
    else if !FramedAsUstar(b) then Err(ArchiveInvalid)
    else if Octal(b[148..156]) != Ok(ByteSum(Blanked(b))) then Err(ArchiveInvalid)
    else if Octal(b[100..108]).Err? || Octal(b[124..136]).Err? || !SpareFieldsOk(b) then
      Err(ArchiveInvalid)
    else
      var mode, size := Octal(b[100..108]).value, Octal(b[124..136]).value;
      if size > MAX_FILE_BYTES || (mode != MODE_PLAIN && mode != MODE_EXECUTABLE) then
        Err(EntryInvalid)
      else if CString(b[..100]).Err? || CString(b[345..500]).Err? then Err(ArchiveInvalid)
      else Ok(Header(Rejoin(CString(b[345..500]).value, CString(b[..100]).value), size, mode))
  }

  /** `c_string` accepts exactly a text without NULs, padded with them. */
  lemma CStringExact(field: bytes, s: bytes)
    ensures CString(field) == Ok(s) <==>
            |s| <= |field| && 0 !in s && Utf8(s) && field == s + Repeat(0, |field| - |s|)
  {
    hide Utf8;
    if |s| <= |field| && 0 !in s && Utf8(s) && field == s + Repeat(0, |field| - |s|) {
      FindIs(field, 0, |s|);
      assert field[..|s|] == s;
    }
    if CString(field) == Ok(s) {
      assert field == field[..|s|] + field[|s|..];
      assert field[|s|..] == Repeat(0, |field| - |s|);
    }
  }

  lemma CStringPad(s: bytes, width: nat)
    requires |s| <= width && 0 !in s && Utf8(s)
    ensures CString(Pad(s, width)) == Ok(s)
  {
    var field := Pad(s, width);
    assert forall i :: 0 <= i < |s| ==> field[i] == s[i] && s[i] in s;
    FindIs(field, 0, |s|);
    assert field[..|s|] == s;
  }

  /** The reader blanks the checksum field to what the printer summed. */
  lemma StampedReads(body: bytes)
    requires |body| == 512 && body[CHECKSUM..CHECKSUM + 8] == Repeat(SPACE, 8)
    ensures var b := Stamped(body);
            && Blanked(b) == body
            && Octal(b[CHECKSUM..CHECKSUM + 8]) == Ok(ByteSum(body))
            && b[..CHECKSUM] == body[..CHECKSUM] && b[CHECKSUM + 8..] == body[CHECKSUM + 8..]
  {
    ChecksumFits(body);
    ChecksumRoundTrip(ByteSum(body));
    var b := Stamped(body);
    assert b[CHECKSUM..CHECKSUM + 8] == ChecksumField(ByteSum(body));
    assert body == body[..CHECKSUM] + body[CHECKSUM..CHECKSUM + 8] + body[CHECKSUM + 8..];
  }

  lemma SameOutside(b: bytes, c: bytes, i: nat, j: nat)
    requires |b| == |c| == 512 && i <= j <= 512
    requires b[..CHECKSUM] == c[..CHECKSUM] && b[CHECKSUM + 8..] == c[CHECKSUM + 8..]
    requires j <= CHECKSUM || CHECKSUM + 8 <= i
    ensures b[i..j] == c[i..j]
  {
    forall k | i <= k < j ensures b[k] == c[k] {
      if k < CHECKSUM {
        assert b[..CHECKSUM][k] == c[..CHECKSUM][k];
      } else {
        assert b[CHECKSUM + 8..][k - CHECKSUM - 8] == c[CHECKSUM + 8..][k - CHECKSUM - 8];
      }
    }
  }

  predicate Printable(path: bytes, size: nat, mode: nat) {
    && path != [] && path[0] != SLASH && 0 !in path && Utf8(path)
    && size <= MAX_FILE_BYTES && (mode == MODE_PLAIN || mode == MODE_EXECUTABLE)
  }

  lemma PrintableFits(path: bytes, size: nat, mode: nat)
    requires Printable(path, size, mode) && CutPath(path).Some?
    ensures var (prefix, name) := CutPath(path).value;
            && Fits(prefix, name, size, mode) && Rejoin(prefix, name) == path
            && Utf8(prefix) && Utf8(name) && 0 !in prefix && 0 !in name
  {
    CutExact(path);
    assert Pow8(11) == 0x2_0000_0000 && Pow8(7) == 0x20_0000 by {
      assert Pow8(3) == 0x200 && Pow8(7) == 0x1000 * Pow8(3);
      assert Pow8(11) == 0x1000 * Pow8(7);
    }
    OctalTextFits(size, 11);
    OctalTextFits(mode, 7);
    var (prefix, name) := CutPath(path).value;
    if |path| > 100 {
      var o := FindCut(path, |path|).value;
      assert path == path[..o] + [SLASH] + path[o + 1..];
      Utf8Cut(path[..o], SLASH, path[o + 1..]);
    }
  }

  /** The reader returns exactly the path, size and mode that were printed. */
  lemma HeaderRoundTrip(path: bytes, size: nat, mode: nat)
    requires Printable(path, size, mode) && CutPath(path).Some?
    ensures var (prefix, name) := CutPath(path).value;
            && Fits(prefix, name, size, mode)
            && ParseBlock(HeaderBlock(prefix, name, size, mode)) == Ok(Header(path, size, mode))
            && !AllZero(HeaderBlock(prefix, name, size, mode))
  {
    PrintableFits(path, size, mode);
    var (prefix, name) := CutPath(path).value;
    var body := Body(prefix, name, size, mode);
    var b := Stamped(body);
    BodyLayout(prefix, name, size, mode);
    StampedReads(body);
    SameOutside(b, body, 0, 100); SameOutside(b, body, 100, 108); SameOutside(b, body, 108, 116);
    SameOutside(b, body, 116, 124); SameOutside(b, body, 124, 136); SameOutside(b, body, 136, 148);
    SameOutside(b, body, 156, 157); SameOutside(b, body, 157, 257); SameOutside(b, body, 257, 263);
    SameOutside(b, body, 263, 265); SameOutside(b, body, 265, 345); SameOutside(b, body, 345, 500);
    SameOutside(b, body, 500, 512);
    assert b[156] == b[156..157][0] == body[156..157][0] == REGULAR;
    FieldsRead(b, prefix, name, size, mode);
  }

  lemma NumbersRead(b: bytes, prefix: bytes, name: bytes, size: nat, mode: nat)
    requires Fits(prefix, name, size, mode) && Layout(b, prefix, name, size, mode)
    requires size < U64_LIMIT && mode < U64_LIMIT
    ensures Octal(b[100..108]) == Ok(mode) && Octal(b[124..136]) == Ok(size) && SpareFieldsOk(b)
  {
    hide Octal, OctalText, OctalField, Pad;
    OctalTextFits(size, 11);
    OctalTextFits(mode, 7);
    OctalRoundTrip(size, 12);
    OctalRoundTrip(mode, 8);
    OctalRoundTrip(0, 8);
    OctalRoundTrip(0, 12);
    OctalOfZeros(8);
    assert b[329..337] == b[265..345][64..72] == Repeat(0, 8);
    assert b[337..345] == b[265..345][72..80] == Repeat(0, 8);
  }

  lemma FieldsRead(b: bytes, prefix: bytes, name: bytes, size: nat, mode: nat)
    requires Fits(prefix, name, size, mode) && Layout(b, prefix, name, size, mode)
    requires Utf8(prefix) && Utf8(name) && 0 !in prefix && 0 !in name
    requires size <= MAX_FILE_BYTES && (mode == MODE_PLAIN || mode == MODE_EXECUTABLE)
    requires Octal(b[148..156]) == Ok(ByteSum(Blanked(b)))
    ensures ParseBlock(b) == Ok(Header(Rejoin(prefix, name), size, mode))
  {
    NumbersRead(b, prefix, name, size, mode);
    CStringPad(name, 100);
    CStringPad(prefix, 155);
    Accepted(b, prefix, name, size, mode);
  }

  lemma Accepted(b: bytes, prefix: bytes, name: bytes, size: nat, mode: nat)
    requires |b| == 512 && b[156] == REGULAR && FramedAsUstar(b)
    requires Octal(b[148..156]) == Ok(ByteSum(Blanked(b)))
    requires Octal(b[100..108]) == Ok(mode) && Octal(b[124..136]) == Ok(size) && SpareFieldsOk(b)
    requires CString(b[..100]) == Ok(name) && CString(b[345..500]) == Ok(prefix)
    requires size <= MAX_FILE_BYTES && (mode == MODE_PLAIN || mode == MODE_EXECUTABLE)
    ensures ParseBlock(b) == Ok(Header(Rejoin(prefix, name), size, mode))
  {
  }

  // -------------------------------------------------------------- the printer

  /** `write_octal`, on one field of the block. */
  method WriteOctal(header: array<byte>, lo: nat, hi: nat, value: nat) returns (ok: bool)
    requires lo + 2 <= hi <= header.Length
    modifies header
    ensures ok <==> |OctalText(value)| < hi - lo
    ensures forall i :: 0 <= i < header.Length && !(lo <= i < hi) ==> header[i] == old(header[i])
    ensures if ok then header[lo..hi] == OctalField(value, hi - lo) else header[..] == old(header[..])
  {
    var text := OctalText(value);
    if |text| >= hi - lo {
      return false;
    }
    forall i | lo <= i < hi {
      header[i] := 0x30;
    }
    var offset := hi - 1 - |text|;
    forall k | 0 <= k < |text| {
      header[offset + k] := text[k];
    }
    header[hi - 1] := 0;
    ok := true;
  }

  method Fill(header: array<byte>, at: nat, text: bytes)
    requires at + |text| <= header.Length
    modifies header
    ensures header[at..at + |text|] == text
    ensures forall i :: 0 <= i < header.Length && !(at <= i < at + |text|) ==> header[i] == old(header[i])
  {
    forall k | 0 <= k < |text| {
      header[at + k] := text[k];
    }
  }

  lemma CutFits(path: bytes)
    requires CutPath(path).Some?
    ensures var (prefix, name) := CutPath(path).value; |prefix| <= 155 && |name| <= 100
  {
    FindCutExact(path, |path|);
  }

  /** The numeric fields of `tar_header`, in the order the source writes them. */
  method WriteNumbers(header: array<byte>, size: nat, mode: nat) returns (ok: bool)
    requires header.Length == 512
    modifies header
    ensures ok <==> |OctalText(size)| < 12 && |OctalText(mode)| < 8
    ensures forall i :: 0 <= i < 512 && !(100 <= i < 148) ==> header[i] == old(header[i])
    ensures ok ==> header[100..108] == OctalField(mode, 8) && header[108..116] == OctalField(0, 8)
                   && header[116..124] == OctalField(0, 8) && header[124..136] == OctalField(size, 12)
                   && header[136..148] == OctalField(0, 12)
  {
    ok := WriteOctal(header, 100, 108, mode);
    if ok {
      ok := WriteOctal(header, 108, 116, 0);
      ok := WriteOctal(header, 116, 124, 0);
      ok := WriteOctal(header, 124, 136, size);
      if ok {
        ok := WriteOctal(header, 136, 148, 0);
      }
    }
  }

  method WriteNames(header: array<byte>, prefix: bytes, name: bytes)
    requires header.Length == 512 && |prefix| <= 155 && |name| <= 100
    requires forall i :: 0 <= i < 512 ==> header[i] == 0
    modifies header
    ensures header[..100] == Pad(name, 100) && header[345..500] == Pad(prefix, 155)
    ensures forall i :: 100 <= i < 345 || 500 <= i < 512 ==> header[i] == 0
  {
    Fill(header, 0, name);
    Fill(header, 345, prefix);
  }

  method WriteMarks(header: array<byte>)
    requires header.Length == 512
    modifies header
    ensures header[CHECKSUM..CHECKSUM + 8] == Repeat(SPACE, 8) && header[156] == REGULAR
    ensures header[257..263] == MAGIC && header[263..265] == VERSION
    ensures forall i :: 0 <= i < 512 && !(148 <= i < 157) && !(257 <= i < 265) ==>
                          header[i] == old(header[i])
  {
    Fill(header, CHECKSUM, Repeat(SPACE, 8));
    Fill(header, 156, [REGULAR]);
    Fill(header, 257, MAGIC);
    Fill(header, 263, VERSION);
  }

  /** The checksum step; its width error cannot happen. */
  method Stamp(header: array<byte>) returns (ok: bool)
    requires header.Length == 512
    modifies header
    ensures ok && header[..] == Stamped(old(header[..]))
  {
    var checksum := ByteSum(header[..]);
    ChecksumFits(header[..]);
    var digits := OctalText(checksum);
    var text := if |digits| < 6 then Repeat(0x30, 6 - |digits|) + digits else digits;
    if |text| != 6 {
      return false;
    }
    Fill(header, CHECKSUM, text);
    header[154] := 0;
    header[155] := SPACE;
    ok := true;
  }

  /** Fails exactly when the path has no legal cut or a number has no room, and
      otherwise leaves the one block that lays the fields out. */
  method TarHeader(path: bytes, size: nat, mode: nat) returns (r: Result<bytes, Error>)
    ensures r.Ok? <==> CutPath(path).Some? && |OctalText(size)| < 12 && |OctalText(mode)| < 8
    ensures r.Ok? ==> var (prefix, name) := CutPath(path).value;
                      Fits(prefix, name, size, mode) && r.value == HeaderBlock(prefix, name, size, mode)
    ensures r.Err? ==> r.error == BuildIo
  {
    var header := new byte[512](_ => 0);
    var cut := CutPath(path);
    if cut.None? {
      return Err(BuildIo);
    }
    CutFits(path);
    var (prefix, name) := cut.value;
    WriteNames(header, prefix, name);
    var ok := WriteNumbers(header, size, mode);
    if !ok {
      return Err(BuildIo);
    }
    WriteMarks(header);
    LayoutBody(header[..], prefix, name, size, mode);
    ok := Stamp(header);
    r := if ok then Ok(header[..]) else Err(BuildIo);
  }
}
