/** The archives that the package printer writes, byte by byte. */
module PrinterRules {
  import opened Prelude
  import opened Package
  import opened UstarHeader
  import opened HeaderRules
  import opened Printer

  // src/artifact/build.rs, `tar_header` and `write_archive`, by offsets and bytes.

  predicate Zeros(s: bytes) {
    forall i :: 0 <= i < |s| ==> s[i] == 0
  }

  /** `text`, and NULs up to the end of the field. */
  predicate FieldText(field: bytes, text: bytes) {
    |text| <= |field| && field[..|text|] == text && Zeros(field[|text|..])
  }

  /** All octal digits, and this value. */
  predicate OctalDigits(t: bytes, v: nat) {
    AllOctal(t) && OctalValue(t) == v
  }

  /** Octal digits and a closing NUL. */
  predicate FieldNumber(field: bytes, v: nat) {
    |field| >= 1 && field[|field| - 1] == 0 && OctalDigits(field[..|field| - 1], v)
  }

  /** The last slash that leaves at most 155 bytes before it; what follows it has to
      fit 100 bytes. */
  predicate CutsAt(path: bytes, o: nat) {
    && o < |path| && path[o] == 0x2F && o <= 155 && |path| - o - 1 <= 100
    && forall p :: o < p < |path| && path[p] == 0x2F ==> p > 155
  }

  predicate NameTold(b: bytes, path: bytes)
    requires |b| == 512
  {
    if |path| <= 100 then FieldText(b[..100], path) && Zeros(b[345..500])
    else exists o :: 0 <= o < |path| && CutsAt(path, o) && FieldText(b[..100], path[o + 1..]) && FieldText(b[345..500], path[..o])
  }

  predicate NumbersTold(b: bytes, size: nat, mode: nat)
    requires |b| == 512
  {
    && FieldNumber(b[100..108], mode) && FieldNumber(b[108..116], 0) && FieldNumber(b[116..124], 0)
    && FieldNumber(b[124..136], size) && FieldNumber(b[136..148], 0)
    && OctalDigits(b[148..154], SpacedSum(b, 512)) && b[154] == 0 && b[155] == 0x20
  }

  predicate BlockTold(b: bytes, path: bytes, size: nat, mode: nat) {
    && |b| == 512 && NameTold(b, path) && NumbersTold(b, size, mode)
    && b[156] == 0x30 && Framed(b) && Zeros(b[265..345])
  }

  // ------------------------------------------------------------------ numbers

  lemma {:induction false} OctalBelow(t: bytes)
    requires AllOctal(t)
    ensures OctalValue(t) < Pow8(|t|)
  {
    if t != [] {
      OctalBelow(t[..|t| - 1]);
    }
  }

  lemma {:induction false} OctalUnique(a: bytes, b: bytes)
    requires AllOctal(a) && AllOctal(b) && |a| == |b| && OctalValue(a) == OctalValue(b)
    ensures a == b
  {
    if a != [] {
      var m, n := a[..|a| - 1], b[..|b| - 1];
      assert OctalValue(a) == 8 * OctalValue(m) + (a[|a| - 1] - 0x30);
      assert OctalValue(b) == 8 * OctalValue(n) + (b[|b| - 1] - 0x30);
      OctalUnique(m, n);
      assert a == m + [a[|a| - 1]] && b == n + [b[|b| - 1]];
    }
  }

  lemma PaddedDigits(v: nat, n: nat)
    requires |OctalText(v)| <= n
    ensures OctalDigits(Repeat(0x30, n - |OctalText(v)|) + OctalText(v), v)
  {
    OctalValueText(v, n - |OctalText(v)|);
  }

  /** In a field of a given width a number has one text. */
  lemma DigitsAre(t: bytes, v: nat)
    requires |t| >= 1
    ensures OctalDigits(t, v) <==>
              |OctalText(v)| <= |t| && t == Repeat(0x30, |t| - |OctalText(v)|) + OctalText(v)
  {
    if OctalDigits(t, v) {
      OctalBelow(t);
      OctalTextFits(v, |t|);
      PaddedDigits(v, |t|);
      OctalUnique(t, Repeat(0x30, |t| - |OctalText(v)|) + OctalText(v));
    } else if |OctalText(v)| <= |t| {
      PaddedDigits(v, |t|);
    }
  }

  lemma FieldNumberIs(field: bytes, v: nat)
    requires |field| >= 2
    ensures FieldNumber(field, v) <==> |OctalText(v)| < |field| && field == OctalField(v, |field|)
  {
    var t := field[..|field| - 1];
    DigitsAre(t, v);
    hide OctalDigits, OctalText;
    assert field == t + [field[|field| - 1]];
    if |OctalText(v)| < |field| && field == OctalField(v, |field|) {
      assert OctalField(v, |field|)[..|field| - 1] == Repeat(0x30, |t| - |OctalText(v)|) + OctalText(v);
    }
  }

  lemma FieldTextIs(field: bytes, text: bytes)
    ensures FieldText(field, text) <==> |text| <= |field| && field == Pad(text, |field|)
  {
    if FieldText(field, text) {
      assert field == field[..|text|] + field[|text|..];
      assert field[|text|..] == Repeat(0, |field| - |text|);
    }
  }

  lemma ZerosAre(s: bytes)
    ensures Zeros(s) <==> s == Repeat(0, |s|)
    ensures Zeros(s) <==> s == Pad([], |s|)
  {
  }

  // ------------------------------------------------------------------ blocks

  predicate PartsTold(b: bytes, prefix: bytes, name: bytes, size: nat, mode: nat) {
    && |b| == 512 && FieldText(b[..100], name) && FieldText(b[345..500], prefix) && NumbersTold(b, size, mode)
    && b[156] == 0x30 && Framed(b) && Zeros(b[265..345])
  }

  lemma StampedIs(b: bytes, body: bytes)
    requires |b| == |body| == 512 && body[148..156] == Repeat(SPACE, 8)
    ensures |OctalText(ByteSum(body))| <= 6
    ensures b == Stamped(body) <==> Blanked(b) == body && b[148..156] == ChecksumField(ByteSum(body))
  {
    ChecksumFits(body);
    hide ChecksumField, ByteSum, OctalText, Repeat;
    var field := ChecksumField(ByteSum(body));
    if b == Stamped(body) {
      assert body == body[..148] + body[148..156] + body[156..];
      assert b[..148] == body[..148] && b[156..] == body[156..] && b[148..156] == field;
    }
    if Blanked(b) == body && b[148..156] == field {
      assert b == b[..148] + b[148..156] + b[156..];
      assert body[..148] == b[..148] && body[156..] == b[156..];
    }
  }

  lemma ChecksumIs(f: bytes, v: nat)
    requires |f| == 8
    ensures OctalDigits(f[..6], v) && f[6] == 0 && f[7] == 0x20 <==> |OctalText(v)| <= 6 && f == ChecksumField(v)
  {
    DigitsAre(f[..6], v);
    hide OctalDigits, OctalText;
    assert f == f[..6] + [f[6], f[7]];
    if |OctalText(v)| <= 6 && f == ChecksumField(v) {
      assert ChecksumField(v)[..6] == Repeat(0x30, 6 - |OctalText(v)|) + OctalText(v);
    }
  }

  lemma FieldsAre(b: bytes, prefix: bytes, name: bytes, size: nat, mode: nat)
    requires |b| == 512
    ensures FieldText(b[..100], name) && FieldText(b[345..500], prefix)
            && FieldNumber(b[100..108], mode) && FieldNumber(b[108..116], 0) && FieldNumber(b[116..124], 0)
            && FieldNumber(b[124..136], size) && FieldNumber(b[136..148], 0)
            && b[156] == 0x30 && Framed(b) && Zeros(b[265..345]) <==>
            Fits(prefix, name, size, mode) && Layout(b, prefix, name, size, mode)
  {
    FieldTextIs(b[..100], name);
    FieldTextIs(b[345..500], prefix);
    FieldNumberIs(b[100..108], mode);
    FieldNumberIs(b[108..116], 0);
    FieldNumberIs(b[116..124], 0);
    FieldNumberIs(b[124..136], size);
    FieldNumberIs(b[136..148], 0);
    FramedIs(b);
    ZerosAre(b[265..345]);
    ZerosAre(b[157..257]);
    ZerosAre(b[500..512]);
    OctalTextZero();
    hide FieldText, FieldNumber, Framed, Zeros, OctalText, Repeat, Pad, OctalField;
  }

  lemma NumbersTouch(b: bytes, c: bytes, prefix: bytes, name: bytes, size: nat, mode: nat)
    requires Fits(prefix, name, size, mode) && |b| == |c| == 512 && b[..148] == c[..148] && b[156..] == c[156..]
    ensures Layout(b, prefix, name, size, mode) <==> Layout(c, prefix, name, size, mode)
  {
    hide Pad, OctalField, Repeat;
    Part(b, c, 0, 100); Part(b, c, 100, 108); Part(b, c, 108, 116); Part(b, c, 116, 124); Part(b, c, 124, 136);
    Part(b, c, 136, 148); Part(b, c, 157, 257); Part(b, c, 257, 263); Part(b, c, 263, 265); Part(b, c, 265, 345);
    Part(b, c, 345, 500); Part(b, c, 500, 512);
    assert b[156] == b[156..][0] && c[156] == c[156..][0];
    assert b[0..100] == b[..100] && c[0..100] == c[..100];
  }

  lemma Part(b: bytes, c: bytes, i: nat, j: nat)
    requires |b| == |c| == 512 && b[..148] == c[..148] && b[156..] == c[156..] && i <= j <= 512 && (j <= 148 || i >= 156)
    ensures b[i..j] == c[i..j]
  {
    forall k | i <= k < j ensures b[k] == c[k] {
      if j <= 148 {
        assert b[k] == b[..148][k] && c[k] == c[..148][k];
      } else {
        assert b[k] == b[156..][k - 156] && c[k] == c[156..][k - 156];
      }
    }
  }

  lemma PartsAre(b: bytes, prefix: bytes, name: bytes, size: nat, mode: nat)
    ensures PartsTold(b, prefix, name, size, mode) <==>
            Fits(prefix, name, size, mode) && b == HeaderBlock(prefix, name, size, mode)
  {
    if |b| != 512 {
      return;
    }
    FieldsAre(b, prefix, name, size, mode);
    SumIs(b);
    ChecksumIs(b[148..156], SpacedSum(b, 512));
    assert b[148..156][..6] == b[148..154];
    if Fits(prefix, name, size, mode) {
      var body := Body(prefix, name, size, mode);
      BodyLayout(prefix, name, size, mode);
      StampedIs(b, body);
      BlankedTouches(b);
      hide Layout, Body;
      NumbersTouch(b, Blanked(b), prefix, name, size, mode);
      if Layout(b, prefix, name, size, mode) {
        LayoutBody(Blanked(b), prefix, name, size, mode);
      }
    }
    hide FieldText, FieldNumber, Framed, Zeros, OctalDigits, Fits, Stamped, Blanked, ByteSum, SpacedSum, ChecksumField;
  }

  lemma BlankedTouches(b: bytes)
    requires |b| == 512
    ensures Blanked(b)[..148] == b[..148] && Blanked(b)[156..] == b[156..] && Blanked(b)[148..156] == Repeat(SPACE, 8)
  {
  }

  // ------------------------------------------------------------------- names

  lemma LegalOrLate(path: bytes, o: nat)
    requires LegalCut(path, o)
    ensures CutsAt(path, o) <==> forall p :: o < p < |path| ==> !LegalCut(path, p)
  {
    if forall p :: o < p < |path| ==> !LegalCut(path, p) {
      forall p | o < p < |path| && path[p] == 0x2F ensures p > 155 {
        assert !LegalCut(path, p);
      }
    }
  }

  lemma {:induction false} LastCut(path: bytes, end: nat)
    requires end <= |path|
    ensures FindCut(path, end).Some? ==>
              FindCut(path, end).value < end && forall p :: FindCut(path, end).value < p < end ==> !LegalCut(path, p)
  {
    if end > 0 && !LegalCut(path, end - 1) {
      LastCut(path, end - 1);
    }
  }

  /** A long path is cut at its last legal slash. */
  lemma CutIs(path: bytes, o: nat)
    requires |path| > 100
    ensures CutsAt(path, o) <==> FindCut(path, |path|) == Some(o)
  {
    FindCutExact(path, |path|);
    LastCut(path, |path|);
    if CutsAt(path, o) {
      assert LegalCut(path, o);
      LegalOrLate(path, o);
      LegalOrLate(path, FindCut(path, |path|).value);
    }
    if FindCut(path, |path|) == Some(o) {
      LegalOrLate(path, o);
    }
  }

  /** The printer's header for a path, size and mode is the told block, and there is
      one only if the path can be cut and the numbers fit their fields. */
  lemma HeaderPrinted(b: bytes, path: bytes, size: nat, mode: nat)
    ensures HeaderFor(path, size, mode) == Some(b) <==> BlockTold(b, path, size, mode)
  {
    hide FieldText, CutsAt, NumbersTold, Framed, Zeros, Fits, HeaderBlock, FindCut;
    if |path| <= 100 {
      PartsAre(b, [], path, size, mode);
      if |b| == 512 {
        FieldTextIs(b[345..500], []);
        ZerosAre(b[345..500]);
      }
    } else {
      forall o: nat ensures CutsAt(path, o) <==> FindCut(path, |path|) == Some(o) {
        CutIs(path, o);
      }
      FindCutExact(path, |path|);
      match FindCut(path, |path|)
      case None =>
      case Some(o) => PartsAre(b, path[..o], path[o + 1..], size, mode);
    }
  }

  // ---------------------------------------------------------------- archives

  /** One file of an archive. */
  datatype Section = Section(path: bytes, mode: nat, data: bytes)

  /** Blocks of 512 bytes: the header, and the data with zeros after it. */
  predicate EntryTold(e: bytes, s: Section) {
    && |e| == 512 + 512 * ((|s.data| + 511) / 512)
    && BlockTold(e[..512], s.path, |s.data|, s.mode)
    && e[512..512 + |s.data|] == s.data && Zeros(e[512 + |s.data|..])
  }

  predicate SectionsTold(plain: bytes, sections: seq<Section>) {
    if sections == [] then |plain| == 1024 && Zeros(plain)
    else
      var n := 512 + 512 * ((|sections[0].data| + 511) / 512);
      n <= |plain| && EntryTold(plain[..n], sections[0]) && SectionsTold(plain[n..], sections[1..])
  }

  function Payload(files: seq<Staged>): seq<Section> {
    seq(|files|, i requires 0 <= i < |files| => Section(files[i].entry.path, files[i].entry.mode, files[i].data))
  }

  /** The manifest first, the signature if there is one, and the files in order. */
  function Sections(manifest: bytes, signature: Option<bytes>, files: seq<Staged>): seq<Section> {
    [Section(Ascii("manifest.json"), 420, manifest)]
    + (match signature case None => [] case Some(sig) => [Section(Ascii("manifest.sig"), 420, sig)])
    + Payload(files)
  }

  lemma PaddingIs(n: nat)
    ensures n + PaddingLength(n) == 512 * ((n + 511) / 512)
  {
    assert n == 512 * (n / 512) + n % 512;
  }

  function SectionBytes(s: Section): Option<bytes> {
    EntryBytes(s.path, s.mode, s.data)
  }

  lemma EntryIs(e: bytes, s: Section)
    ensures SectionBytes(s) == Some(e) <==> EntryTold(e, s)
  {
    hide HeaderFor, BlockTold;
    var n, pad := |s.data|, PaddingLength(|s.data|);
    PaddingIs(n);
    hide PaddingLength;
    if SectionBytes(s) == Some(e) {
      var header := HeaderFor(s.path, n, s.mode).value;
      HeaderPrinted(header, s.path, n, s.mode);
      BlockWhole(header, s.path, n, s.mode);
      assert e[..512] == header && e[512..512 + n] == s.data && e[512 + n..] == Repeat(0, pad);
    }
    if EntryTold(e, s) {
      HeaderPrinted(e[..512], s.path, n, s.mode);
      assert e[512 + n..] == Repeat(0, pad);
      assert e == e[..512] + e[512..512 + n] + e[512 + n..];
    }
  }

  lemma BlockWhole(b: bytes, path: bytes, size: nat, mode: nat)
    requires BlockTold(b, path, size, mode)
    ensures |b| == 512
  {
  }

  function SectionPieces(sections: seq<Section>): (r: seq<Option<bytes>>)
    ensures |r| == |sections|
  {
    seq(|sections|, i requires 0 <= i < |sections| => SectionBytes(sections[i]))
  }

  lemma AppendAll(a: Option<bytes>, b: Option<bytes>, c: Option<bytes>)
    ensures Append(Append(a, b), c) == Append(a, Append(b, c))
    ensures Append(Some([]), a) == a == Append(a, Some([]))
  {
    if a.Some? && b.Some? && c.Some? {
      assert (a.value + b.value) + c.value == a.value + (b.value + c.value);
    }
    if a.Some? {
      assert [] + a.value == a.value == a.value + [];
    }
  }

  lemma {:induction false} CollectFirst(pieces: seq<Option<bytes>>)
    requires pieces != []
    ensures Collect(pieces) == Append(pieces[0], Collect(pieces[1..]))
  {
    var n := |pieces| - 1;
    if n > 0 {
      CollectFirst(pieces[..n]);
      assert pieces[..n][1..] == pieces[1..][..n - 1];
      assert Collect(pieces[1..]) == Append(Collect(pieces[1..][..n - 1]), pieces[n]);
      AppendAll(pieces[0], Collect(pieces[1..][..n - 1]), pieces[n]);
    } else {
      assert pieces[..0] == [] && pieces[1..] == [];
      AppendAll(pieces[0], None, None);
    }
  }

  lemma {:induction false} SectionsAre(plain: bytes, sections: seq<Section>)
    ensures Append(Collect(SectionPieces(sections)), Some(Repeat(0, 1024))) == Some(plain) <==>
            SectionsTold(plain, sections)
    decreases |sections|
  {
    hide EntryTold, SectionBytes, Collect;
    if sections == [] {
      CollectNone();
      ZerosAre(plain);
    } else {
      var s, rest := sections[0], sections[1..];
      var n := 512 + 512 * ((|s.data| + 511) / 512);
      var pieces := SectionPieces(sections);
      assert pieces[1..] == SectionPieces(rest);
      CollectFirst(pieces);
      AppendAll(pieces[0], Collect(pieces[1..]), Some(Repeat(0, 1024)));
      if SectionsTold(plain, sections) {
        EntryIs(plain[..n], s);
        SectionsAre(plain[n..], rest);
        assert plain == plain[..n] + plain[n..];
      }
      if Append(Collect(pieces), Some(Repeat(0, 1024))) == Some(plain) {
        var head := SectionBytes(s).value;
        EntryIs(head, s);
        EntrySize(head, s);
        var tail := Append(Collect(pieces[1..]), Some(Repeat(0, 1024))).value;
        assert plain == head + tail;
        SectionsAre(tail, rest);
        assert plain[..n] == head && plain[n..] == tail;
      }
    }
  }

  lemma EntrySize(e: bytes, s: Section)
    requires EntryTold(e, s)
    ensures |e| == 512 + 512 * ((|s.data| + 511) / 512)
  {
  }

  lemma CollectNone()
    ensures Collect([]) == Some([])
  {
  }

  lemma PiecesAre(files: seq<Staged>)
    ensures Pieces(files) == SectionPieces(Payload(files))
  {
    forall i | 0 <= i < |files| ensures Pieces(files)[i] == SectionPieces(Payload(files))[i] {
      PieceAt(files, i);
    }
  }

  lemma {:induction false} CollectJoin(a: seq<Option<bytes>>, b: seq<Option<bytes>>)
    ensures Collect(a + b) == Append(Collect(a), Collect(b))
  {
    if b == [] {
      assert a + b == a;
      AppendAll(Collect(a), None, None);
    } else {
      var n := |b| - 1;
      assert (a + b)[..|a + b| - 1] == a + b[..n];
      CollectJoin(a, b[..n]);
      AppendAll(Collect(a), Collect(b[..n]), b[n]);
    }
  }

  lemma MetadataIs(manifest: bytes, signature: Option<bytes>)
    ensures PrintMetadata(manifest, signature) == Collect(SectionPieces(Sections(manifest, signature, [])))
  {
    hide EntryBytes;
    var first := EntryBytes(Ascii("manifest.json"), 420, manifest);
    CollectOne(first);
    var pieces := SectionPieces(Sections(manifest, signature, []));
    match signature
    case None =>
      assert pieces == [first];
      AppendAll(first, None, None);
    case Some(sig) =>
      var second := EntryBytes(Ascii("manifest.sig"), 420, sig);
      assert pieces == [first] + [second];
      CollectOne(second);
      CollectJoin([first], [second]);
  }

  lemma CollectOne(p: Option<bytes>)
    ensures Collect([p]) == p
  {
    assert [p][..0] == [];
    AppendAll(p, None, None);
  }

  /** The printed archive is the told one: every section in its blocks, in order, and
      two zero blocks after them; there is none if some section has no block. */
  lemma ArchivePrinted(plain: bytes, manifest: bytes, signature: Option<bytes>, files: seq<Staged>)
    ensures PrintArchive(manifest, signature, files) == Some(plain) <==>
            SectionsTold(plain, Sections(manifest, signature, files))
  {
    hide SectionsTold, Collect, SectionBytes, PrintMetadata, Pieces;
    var all := Sections(manifest, signature, files);
    var front := Sections(manifest, signature, []);
    assert all == front + Payload(files);
    assert SectionPieces(all) == SectionPieces(front) + SectionPieces(Payload(files));
    MetadataIs(manifest, signature);
    PiecesAre(files);
    CollectJoin(SectionPieces(front), SectionPieces(Payload(files)));
    SectionsAre(plain, all);
  }
}
