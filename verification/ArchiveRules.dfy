/** The archives that the package verifier accepts, section by section. */
module ArchiveRules {
  import opened Prelude
  import opened Package
  import opened Inventory
  import opened ManifestRules
  import opened UstarHeader
  import opened HeaderRules
  import opened Printer
  import opened PrinterRules
  import opened Verifier
  import opened Soundness

  // src/artifact/verify.rs, `verify_inner`: what a stream of blocks must look like to
  // be accepted, by literal names and sizes, and what is made of it then.

  /** A header block and the file it announces. */
  datatype Part = Part(header: Header, data: bytes)

  /** These 512 bytes are read as this header. */
  ghost predicate HeaderTold(b: bytes, h: Header) {
    && |b| == 512 && (b[156] == 0 || b[156] == 0x30) && HeaderRules.Framed(b) && Numbered(b)
    && Number(b[124..136], h.size) && Number(b[100..108], h.mode) && Bounded(h.size, h.mode) && HeaderRules.Named(b, h.name)
  }

  function PartSize(p: Part): nat {
    512 + 512 * ((|p.data| + 511) / 512)
  }

  ghost predicate PartTold(e: bytes, p: Part) {
    && |e| == PartSize(p) && HeaderTold(e[..512], p.header) && p.header.size == |p.data|
    && e[512..512 + |p.data|] == p.data && Zeros(e[512 + |p.data|..])
  }

  /** Parts, two zero blocks, and a tail. */
  ghost predicate PartsTold(plain: bytes, parts: seq<Part>, tail: bytes) {
    if parts == [] then |plain| >= 1024 && Zeros(plain[..1024]) && tail == plain[1024..]
    else
      var n := PartSize(parts[0]);
      n <= |plain| && PartTold(plain[..n], parts[0]) && PartsTold(plain[n..], parts[1..], tail)
  }

  /** What the inventory has to say of a part. */
  function Listed(env: Env, p: Part): FileEntry {
    FileEntry(p.header.name, p.header.size, env.sha256(p.data), p.header.mode)
  }

  function AllListed(env: Env, parts: seq<Part>): (r: seq<FileEntry>)
    ensures |r| == |parts|
  {
    seq(|parts|, i requires 0 <= i < |parts| => Listed(env, parts[i]))
  }

  datatype Contents = Contents(manifest: Manifest, raw: bytes, signature: Option<bytes>, files: seq<Part>, tail: bytes)

  function TextPart(name: string, data: bytes): Part {
    Part(Header(Ascii(name), |data|, 420), data)
  }

  function Layout(c: Contents): seq<Part> {
    [TextPart("manifest.json", c.raw)]
    + (match c.signature case None => [] case Some(text) => [TextPart("manifest.sig", text)])
    + c.files
  }

  ghost predicate Trusted(env: Env, c: Contents, key: Option<bytes>, allowUnsigned: bool) {
    match c.signature
    case None => allowUnsigned && key.None?
    case Some(text) =>
      && 1 <= |text| <= 128 && env.signatureOf(text).Some? && key.Some?
      && env.signed(key.value, c.raw, env.signatureOf(text).value)
  }

  /** The whole archive. */
  ghost predicate ArchiveTold(env: Env, archive: bytes, key: Option<bytes>, allowUnsigned: bool, c: Contents) {
    var z := env.gunzip(archive);
    && 1 <= |archive| <= 1_073_741_824 && z.intact && !z.trailing
    && |z.plain| < 4_294_967_296 + 1_048_576 + 10_002 * 1024 + 1_048_576
    && PartsTold(z.plain, Layout(c), c.tail) && Zeros(c.tail) && |c.tail| <= 1_048_576
    && 1 <= |c.raw| <= 1_048_576 && env.decode(c.raw) == Some(c.manifest) && Admissible(c.manifest, env.lower)
    && Trusted(env, c, key, allowUnsigned)
    && multiset(AllListed(env, c.files)) == multiset(c.manifest.files)
  }

  // ------------------------------------------------------------------ one part

  lemma ZeroBlock(b: bytes, h: Header)
    requires |b| == 512 && AllZero(b)
    ensures !HeaderTold(b, h)
  {
    assert b[257..265][0] == 0;
    hide Numbered, Number, HeaderRules.Named;
  }

  lemma HeadNone(w: bytes)
    ensures NextHeader(w).Ok? && NextHeader(w).value.0.None? <==> |w| >= 1024 && Zeros(w[..1024])
    ensures |w| >= 1024 && Zeros(w[..1024]) ==> NextHeader(w) == Ok((None, w[1024..]))
  {
    if |w| >= 1024 {
      assert w[..1024] == w[..512] + w[512..1024];
      assert forall i :: 0 <= i < 512 ==> w[..1024][i] == w[..512][i] && w[..1024][512 + i] == w[512..1024][i];
    }
    hide ParseBlock;
  }

  lemma HeadSome(w: bytes, h: Header)
    ensures |w| >= 512 && HeaderTold(w[..512], h) <==> NextHeader(w) == Ok((Some(h), if |w| >= 512 then w[512..] else []))
  {
    if |w| >= 512 {
      HeaderExact(w[..512], h);
      if AllZero(w[..512]) {
        ZeroBlock(w[..512], h);
      }
    }
    hide ParseBlock, AllZero, HeaderRules.Framed, Numbered, Number, HeaderRules.Named, Bounded;
  }

  lemma TakeIs(rest: bytes, p: Part, after: bytes)
    ensures |p.data| + 512 <= PartSize(p)
    ensures TakeSmall(rest, |p.data|) == Ok((p.data, after)) <==>
              var n := PartSize(p) - 512;
              n <= |rest| && rest[..|p.data|] == p.data && Zeros(rest[|p.data|..n]) && after == rest[n..]
  {
    var data := p.data;
    PaddingIs(|data|);
    hide PaddingLength;
    var n := |data| + PaddingLength(|data|);
    if n <= |rest| {
      assert rest[|data|..][..PaddingLength(|data|)] == rest[|data|..n];
      assert rest[|data|..][PaddingLength(|data|)..] == rest[n..];
    }
  }

  /** A part at the head of the stream is what the verifier reads there. */
  lemma PartHead(w: bytes, p: Part, after: bytes)
    ensures PartSize(p) <= |w| && PartTold(w[..PartSize(p)], p) && after == w[PartSize(p)..] <==>
              |w| >= 512 && NextHeader(w) == Ok((Some(p.header), w[512..])) && p.header.size == |p.data|
              && TakeSmall(w[512..], |p.data|) == Ok((p.data, after))
  {
    HeadSome(w, p.header);
    if |w| >= 512 {
      TakeIs(w[512..], p, after);
      PartOf(w, p);
    }
    hide NextHeader, PartTold, HeaderTold, Zeros, TakeSmall, PartSize;
  }

  lemma PartOf(w: bytes, p: Part)
    requires |w| >= 512
    ensures var n := PartSize(p);
            n <= |w| ==>
              && w[n..] == w[512..][n - 512..]
              && (PartTold(w[..n], p) <==>
                    HeaderTold(w[..512], p.header) && p.header.size == |p.data|
                    && w[512..][..|p.data|] == p.data && Zeros(w[512..][|p.data|..n - 512]))
  {
    hide HeaderTold, Zeros;
    SplitPart(w, p);
  }

  lemma SplitPart(w: bytes, p: Part)
    requires |w| >= 512
    ensures var n := PartSize(p);
            n <= |w| ==>
              && w[..n][..512] == w[..512] && w[..n][512..512 + |p.data|] == w[512..][..|p.data|]
              && w[..n][512 + |p.data|..] == w[512..][|p.data|..n - 512] && w[n..] == w[512..][n - 512..]
  {
    var n := PartSize(p);
    if n <= |w| {
      var e, r := w[..n], w[512..];
      assert forall i :: 0 <= i < |r| ==> r[i] == w[512 + i];
      assert e[512..512 + |p.data|] == r[..|p.data|];
      assert e[512 + |p.data|..] == r[|p.data|..n - 512];
    }
  }

  // ------------------------------------------------------------ the payload loop

  /** The parts are the entries of the inventory, each once. */
  predicate Fit(env: Env, parts: seq<Part>, inventory: map<bytes, FileEntry>) {
    if parts == [] then inventory == map[]
    else
      var name := parts[0].header.name;
      name in inventory && Listed(env, parts[0]) == inventory[name] && Fit(env, parts[1..], inventory - {name})
  }

  function Delivery(env: Env, parts: seq<Part>): (r: seq<Delivered>)
    ensures |r| == |parts|
  {
    if parts == [] then [] else [Delivered(Listed(env, parts[0]), parts[0].data)] + Delivery(env, parts[1..])
  }

  function SizeOf(parts: seq<Part>): nat {
    if parts == [] then 0 else |parts[0].data| + SizeOf(parts[1..])
  }

  /** What the payload loop makes of a stream of these parts. */
  ghost predicate LoopGives(env: Env, inventory: map<bytes, FileEntry>, at: Payload, parts: seq<Part>, tail: bytes) {
    AfterFile(env, inventory, at)
    == Run(AllEvents(Delivery(env, parts)), Ok(Payload(at.files + |parts|, at.total + SizeOf(parts), tail)))
  }

  lemma FileTold(env: Env, rest: bytes, p: Part, e: FileEntry, after: bytes)
    requires e == Listed(env, p) && p.header.size == |p.data|
    requires TakeSmall(rest, |p.data|) == Ok((p.data, after))
    ensures FileRun(env, rest, e) == Run(FileEvents(Delivered(e, p.data)), Ok(after))
  {
    hide SkipPadding, Chunks;
  }

  lemma FileRead(env: Env, rest: bytes, e: FileEntry) returns (data: bytes)
    requires FileRun(env, rest, e).result.Ok?
    ensures |data| == e.size && env.sha256(data) == e.sha256
    ensures TakeSmall(rest, e.size) == Ok((data, FileRun(env, rest, e).result.value))
  {
    hide SkipPadding, Chunks;
    data := rest[..e.size];
  }

  lemma ExpectedIs(env: Env, p: Part, inventory: map<bytes, FileEntry>)
    requires ValidPath(p.header.name, env.lower)
    ensures p.header.name in inventory && Listed(env, p) == inventory[p.header.name] ==>
              Expected(env, p.header, inventory) == Ok(Listed(env, p))
  {
    hide ValidatePath;
  }

  lemma ExpectedHas(env: Env, h: Header, inventory: map<bytes, FileEntry>)
    requires Keyed(inventory) && Expected(env, h, inventory).Ok?
    ensures var e := Expected(env, h, inventory).value;
            h.name in inventory && inventory[h.name] == e && e == FileEntry(h.name, h.size, e.sha256, h.mode)
  {
    hide ValidatePath;
  }

  lemma AfterIs(env: Env, inventory: map<bytes, FileEntry>, at: Payload)
    ensures var head := NextHeader(at.rest);
            AfterFile(env, inventory, at)
            == if head.Err? then Run([], Err(head.error))
               else FilesRun(env, head.value.0, inventory, at.(rest := head.value.1))
  {
    hide NextHeader, FilesRun;
  }

  lemma LoopEnds(env: Env, inventory: map<bytes, FileEntry>, at: Payload)
    ensures FilesRun(env, None, inventory, at) == Run([], if inventory == map[] then Ok(at) else Err(InventoryMismatch))
  {
  }

  /** Parts that fit the inventory are accepted and delivered in order. */
  lemma {:induction false} LoopAccepts(env: Env, inventory: map<bytes, FileEntry>, at: Payload, parts: seq<Part>,
                                       tail: bytes)
    requires PartsTold(at.rest, parts, tail) && Fit(env, parts, inventory)
    requires forall p <- inventory :: ValidPath(p, env.lower)
    ensures LoopGives(env, inventory, at, parts, tail)
    decreases |parts|
  {
    hide NextHeader, FilesRun, AfterFile, FileRun, TakeSmall, ValidPath, Expected, PartTold, Zeros;
    var w := at.rest;
    AfterIs(env, inventory, at);
    if parts == [] {
      HeadNone(w);
      LoopEnds(env, inventory, at.(rest := tail));
    } else {
      var p, n := parts[0], PartSize(parts[0]);
      var e := Listed(env, p);
      PartHead(w, p, w[n..]);
      ExpectedIs(env, p, inventory);
      FileTold(env, w[512..], p, e, w[n..]);
      FilesTurn(env, p.header, inventory, at.(rest := w[512..]));
      var on := Payload(at.files + 1, at.total + p.header.size, w[n..]);
      LoopAccepts(env, inventory - {p.header.name}, on, parts[1..], tail);
    }
  }

  /** What the loop accepts are parts that fit the inventory. */
  lemma {:induction false} LoopParts(env: Env, inventory: map<bytes, FileEntry>, at: Payload)
    returns (parts: seq<Part>)
    requires Keyed(inventory) && AfterFile(env, inventory, at).result.Ok?
    ensures PartsTold(at.rest, parts, AfterFile(env, inventory, at).result.value.rest) && Fit(env, parts, inventory)
    decreases |at.rest|
  {
    hide NextHeader, FilesRun, AfterFile, FileRun, TakeSmall, Expected, PartTold, Zeros;
    var w := at.rest;
    AfterIs(env, inventory, at);
    var (next, rest) := NextHeader(w).value;
    match next {
      case None =>
        HeadNone(w);
        LoopEnds(env, inventory, at.(rest := rest));
        parts := [];
      case Some(h) =>
        HeaderRest(w, h);
        Accepting(env, h, inventory, at.(rest := rest));
        ExpectedHas(env, h, inventory);
        FilesTurn(env, h, inventory, at.(rest := rest));
        var e := inventory[h.name];
        var data := FileRead(env, rest, e);
        var after := FileRun(env, rest, e).result.value;
        var p := Part(h, data);
        PartHead(w, p, after);
        var more := LoopParts(env, inventory - {h.name}, Payload(at.files + 1, at.total + h.size, after));
        parts := [p] + more;
        assert parts[1..] == more;
    }
  }

  lemma HeaderRest(w: bytes, h: Header)
    requires NextHeader(w).Ok? && NextHeader(w).value.0 == Some(h)
    ensures |w| >= 512 && NextHeader(w).value.1 == w[512..]
  {
    hide ParseBlock;
  }

  lemma Accepting(env: Env, h: Header, inventory: map<bytes, FileEntry>, at: Payload)
    requires FilesRun(env, Some(h), inventory, at).result.Ok?
    ensures Expected(env, h, inventory).Ok?
    ensures FileRun(env, at.rest, Expected(env, h, inventory).value).result.Ok?
  {
    hide Expected, FileRun, AfterFile;
  }

  // ---------------------------------------------------------- the inventory

  ghost predicate Covers(inventory: map<bytes, FileEntry>, files: seq<FileEntry>) {
    DistinctPaths(files) && Indexes(inventory, files)
  }

  lemma DistinctLess(files: seq<FileEntry>, k: nat)
    requires DistinctPaths(files) && k < |files|
    ensures var less := files[..k] + files[k + 1..];
            DistinctPaths(less) && forall f <- less :: f in files && f.path != files[k].path
  {
    var less := files[..k] + files[k + 1..];
    assert forall i :: 0 <= i < |less| ==> less[i] == if i < k then files[i] else files[i + 1];
  }

  lemma CoversLess(inventory: map<bytes, FileEntry>, files: seq<FileEntry>, k: nat)
    requires Covers(inventory, files) && k < |files|
    ensures Covers(inventory - {files[k].path}, files[..k] + files[k + 1..])
  {
    var less := files[..k] + files[k + 1..];
    DistinctLess(files, k);
    hide DistinctPaths;
    forall p | p in inventory - {files[k].path} ensures inventory[p] in less {
      var i :| 0 <= i < |files| && files[i] == inventory[p];
      assert less[if i < k then i else i - 1] == files[i];
    }
  }

  lemma {:induction false} FitBag(env: Env, parts: seq<Part>, inventory: map<bytes, FileEntry>, files: seq<FileEntry>)
    requires Covers(inventory, files)
    ensures Fit(env, parts, inventory) <==> multiset(AllListed(env, parts)) == multiset(files)
    decreases |parts|
  {
    hide Covers, Listed;
    if parts == [] {
      CoversNone(inventory, files);
    } else {
      var e, rest := Listed(env, parts[0]), parts[1..];
      assert AllListed(env, parts) == [e] + AllListed(env, rest);
      CoversHas(inventory, files, e);
      ListedName(env, parts[0]);
      if e in files {
        var k :| 0 <= k < |files| && files[k] == e;
        CoversLess(inventory, files, k);
        RemoveBag(files, k);
        FitBag(env, rest, inventory - {e.path}, files[..k] + files[k + 1..]);
      } else {
        assert e in multiset(AllListed(env, parts)) && e !in multiset(files);
      }
    }
  }

  lemma ListedName(env: Env, p: Part)
    ensures Listed(env, p).path == p.header.name
  {
  }

  lemma CoversNone(inventory: map<bytes, FileEntry>, files: seq<FileEntry>)
    requires Covers(inventory, files)
    ensures inventory == map[] <==> files == []
    ensures files == [] <==> multiset(files) == multiset{}
  {
    if files != [] {
      assert files[0] in files;
      assert files[0] in multiset(files);
    }
  }

  lemma CoversHas(inventory: map<bytes, FileEntry>, files: seq<FileEntry>, e: FileEntry)
    requires Covers(inventory, files)
    ensures e in files <==> e.path in inventory && inventory[e.path] == e
  {
  }

  lemma IndexCovers(files: seq<FileEntry>)
    requires DistinctPaths(files)
    ensures Covers(Index(files), files) && Keyed(Index(files))
  {
    IndexKeys(files);
    hide Index, DistinctPaths;
  }

  // ------------------------------------------------------------ the two texts

  /** The part at the head of `w` is this text, and `after` follows it. */
  ghost predicate TextAt(w: bytes, name: string, data: bytes, after: bytes) {
    var p := TextPart(name, data);
    PartSize(p) <= |w| && PartTold(w[..PartSize(p)], p) && after == w[PartSize(p)..]
  }

  lemma TextHead(w: bytes, name: string, data: bytes, after: bytes)
    ensures TextAt(w, name, data, after) <==>
              |w| >= 512 && NextHeader(w) == Ok((Some(Header(Ascii(name), |data|, 420)), w[512..]))
              && TakeSmall(w[512..], |data|) == Ok((data, after))
  {
    PartHead(w, TextPart(name, data), after);
    hide NextHeader, TakeSmall, PartTold, Ascii;
  }

  lemma SmallSize(rest: bytes, size: nat)
    requires TakeSmall(rest, size).Ok?
    ensures |TakeSmall(rest, size).value.0| == size
  {
    hide SkipPadding;
  }

  /** Where the payload begins, after the manifest's part. */
  ghost predicate SignatureAt(w: bytes, signature: Option<bytes>, after: bytes) {
    match signature
    case None => after == w
    case Some(text) => TextAt(w, "manifest.sig", text, after)
  }

  predicate NotSignature(w: bytes) {
    var head := NextHeader(w);
    head.Ok? && head.value.0.Some? ==> head.value.0.value.name != Ascii("manifest.sig")
  }

  ghost predicate FrontIs(r: Result<Front, Error>, c: Contents, after: bytes) {
    NextHeader(after).Ok?
    && r == Ok(Front(c.manifest, c.raw, c.signature, NextHeader(after).value.0, NextHeader(after).value.1))
  }

  lemma SignatureTold(env: Env, c: Contents, w: bytes, after: bytes, key: Option<bytes>, allowUnsigned: bool)
    requires Trusted(env, c, key, allowUnsigned) && SignatureAt(w, c.signature, after)
    requires NextHeader(after).Ok? && (c.signature.None? ==> NotSignature(w))
    ensures FrontIs(SignatureRun(env, c.manifest, c.raw, w, key, allowUnsigned), c, after)
  {
    if c.signature.Some? {
      TextHead(w, "manifest.sig", c.signature.value, after);
    }
    hide NextHeader, TakeSmall, TextAt, Ascii;
  }

  lemma SignatureRead(env: Env, m: Manifest, raw: bytes, w: bytes, key: Option<bytes>, allowUnsigned: bool)
    returns (after: bytes, c: Contents)
    requires SignatureRun(env, m, raw, w, key, allowUnsigned).Ok?
    ensures c.manifest == m && c.raw == raw && Trusted(env, c, key, allowUnsigned) && SignatureAt(w, c.signature, after)
    ensures FrontIs(SignatureRun(env, m, raw, w, key, allowUnsigned), c, after)
  {
    hide NextHeader, TakeSmall, TextAt, Ascii;
    var front := SignatureRun(env, m, raw, w, key, allowUnsigned).value;
    c := Contents(m, raw, front.signature, [], []);
    if front.signature.Some? {
      after := SignatureThere(env, m, raw, w, key, allowUnsigned);
    } else {
      after := w;
    }
  }

  lemma SignatureThere(env: Env, m: Manifest, raw: bytes, w: bytes, key: Option<bytes>, allowUnsigned: bool)
    returns (after: bytes)
    requires var r := SignatureRun(env, m, raw, w, key, allowUnsigned); r.Ok? && r.value.signature.Some?
    ensures var front := SignatureRun(env, m, raw, w, key, allowUnsigned).value;
            var text := front.signature.value;
            && TextAt(w, "manifest.sig", text, after) && 1 <= |text| <= 128 && NextHeader(after) == Ok((front.next, front.rest))
            && env.signatureOf(text).Some? && key.Some? && env.signed(key.value, raw, env.signatureOf(text).value)
            && front.manifest == m && front.raw == raw
  {
    hide NextHeader, TakeSmall, TextAt, Ascii;
    var (next, rest) := NextHeader(w).value;
    var h := next.value;
    HeaderRest(w, h);
    SmallSize(rest, h.size);
    var text := TakeSmall(rest, h.size).value.0;
    after := TakeSmall(rest, h.size).value.1;
    TextHead(w, "manifest.sig", text, after);
  }

  lemma FrontTold(env: Env, c: Contents, w: bytes, second: bytes, after: bytes, key: Option<bytes>, allowUnsigned: bool)
    requires TextAt(w, "manifest.json", c.raw, second) && 1 <= |c.raw| <= 1_048_576
    requires env.decode(c.raw) == Some(c.manifest) && Verdict(c.manifest, true, env.lower).Ok?
    requires FrontIs(SignatureRun(env, c.manifest, c.raw, second, key, allowUnsigned), c, after)
    ensures FrontIs(FrontRun(env, w, key, allowUnsigned), c, after)
  {
    TextHead(w, "manifest.json", c.raw, second);
    hide NextHeader, TakeSmall, TextAt, Ascii, SignatureRun, Verdict;
  }

  lemma FrontRead(env: Env, w: bytes, key: Option<bytes>, allowUnsigned: bool)
    returns (second: bytes, after: bytes, c: Contents)
    requires FrontRun(env, w, key, allowUnsigned).Ok?
    ensures TextAt(w, "manifest.json", c.raw, second) && 1 <= |c.raw| <= 1_048_576
    ensures env.decode(c.raw) == Some(c.manifest) && Verdict(c.manifest, true, env.lower).Ok?
    ensures Trusted(env, c, key, allowUnsigned) && SignatureAt(second, c.signature, after)
    ensures FrontIs(FrontRun(env, w, key, allowUnsigned), c, after)
  {
    hide NextHeader, TakeSmall, TextAt, Ascii, SignatureRun, Verdict, Trusted, SignatureAt, FrontIs;
    var (next, rest) := NextHeader(w).value;
    var h := next.value;
    var raw := TakeSmall(rest, h.size).value.0;
    second := TakeSmall(rest, h.size).value.1;
    HeaderRest(w, h);
    SmallSize(rest, h.size);
    TextHead(w, "manifest.json", raw, second);
    var m := env.decode(raw).value;
    after, c := SignatureRead(env, m, raw, second, key, allowUnsigned);
  }

  // ---------------------------------------------------------------- the whole

  lemma PartsMore(w: bytes, p: Part, after: bytes, parts: seq<Part>, tail: bytes)
    requires PartSize(p) <= |w| && PartTold(w[..PartSize(p)], p) && after == w[PartSize(p)..]
    requires PartsTold(after, parts, tail)
    ensures PartsTold(w, [p] + parts, tail)
  {
    hide PartTold;
    assert ([p] + parts)[1..] == parts;
  }

  /** A stream laid out so starts with its texts and goes on with its files. */
  lemma LayoutParts(w: bytes, c: Contents, tail: bytes) returns (second: bytes, after: bytes)
    requires PartsTold(w, Layout(c), tail)
    ensures TextAt(w, "manifest.json", c.raw, second) && SignatureAt(second, c.signature, after)
    ensures PartsTold(after, c.files, tail)
  {
    hide PartTold, TextPart;
    var first := TextPart("manifest.json", c.raw);
    var all := Layout(c);
    assert all[0] == first;
    second := w[PartSize(first)..];
    match c.signature
    case None =>
      assert all[1..] == c.files;
      after := second;
    case Some(text) =>
      var p := TextPart("manifest.sig", text);
      assert all[1..] == [p] + c.files;
      after := second[PartSize(p)..];
      assert ([p] + c.files)[1..] == c.files;
  }

  lemma PartsLayout(w: bytes, c: Contents, second: bytes, after: bytes, tail: bytes)
    requires TextAt(w, "manifest.json", c.raw, second) && SignatureAt(second, c.signature, after)
    requires PartsTold(after, c.files, tail)
    ensures PartsTold(w, Layout(c), tail)
  {
    hide PartTold, PartsTold, TextPart;
    match c.signature
    case None =>
      PartsMore(w, TextPart("manifest.json", c.raw), second, c.files, tail);
      assert Layout(c) == [TextPart("manifest.json", c.raw)] + c.files;
    case Some(text) =>
      var p := TextPart("manifest.sig", text);
      PartsMore(second, p, after, c.files, tail);
      PartsMore(w, TextPart("manifest.json", c.raw), second, [p] + c.files, tail);
      assert Layout(c) == [TextPart("manifest.json", c.raw)] + ([p] + c.files);
  }

  /** Payload names lie below a root, so none is the signature's. */
  lemma FilesNotSignature(env: Env, w: bytes, parts: seq<Part>, tail: bytes, m: Manifest)
    requires PartsTold(w, parts, tail) && ManifestOk(m, env.lower)
    requires multiset(AllListed(env, parts)) == multiset(m.files)
    ensures NextHeader(w).Ok? && NotSignature(w)
  {
    if parts == [] {
      HeadNone(w);
    } else {
      PartHead(w, parts[0], w[PartSize(parts[0])..]);
      var e := AllListed(env, parts)[0];
      assert e in multiset(AllListed(env, parts));
      assert e in m.files;
      PlainPath(m, env.lower, e);
    }
    hide NextHeader, PartTold, AllListed, ManifestOk, Ascii, TakeSmall;
  }

  lemma PlainPath(m: Manifest, lower: bytes -> bytes, e: FileEntry)
    requires ManifestOk(m, lower) && e in m.files
    ensures ValidPath(e.path, lower) && e.path != Ascii("manifest.sig")
  {
    var i :| 0 <= i < |m.files| && m.files[i] == e;
    assert EntryCheck(lower)(m.files[i]);
    ValidPathShape(e.path, lower);
    NoSlash();
    hide ValidPath, Ascii;
  }

  lemma NoSlash()
    ensures SLASH !in Ascii("manifest.sig")
  {
  }

  ghost predicate StreamTold(env: Env, w: bytes, key: Option<bytes>, allowUnsigned: bool, c: Contents) {
    && PartsTold(w, Layout(c), c.tail)
    && 1 <= |c.raw| <= 1_048_576 && env.decode(c.raw) == Some(c.manifest) && Admissible(c.manifest, env.lower)
    && Trusted(env, c, key, allowUnsigned)
    && multiset(AllListed(env, c.files)) == multiset(c.manifest.files)
  }

  /** How the transcript of a readable stream starts. */
  lemma TranscriptIs(env: Env, archive: bytes, key: Option<bytes>, allowUnsigned: bool, c: Contents, after: bytes)
    requires 1 <= |archive| <= 1_073_741_824 && |env.gunzip(archive).plain| <= STREAM_LIMIT
    requires FrontIs(FrontRun(env, env.gunzip(archive).plain, key, allowUnsigned), c, after)
    ensures var run := Transcript(env, archive, key, allowUnsigned);
            var files := AfterFile(env, Index(c.manifest.files), Payload(0, 0, after));
            && run.events == [Begin(c.manifest, c.raw, c.signature)] + files.events
            && (run.result.Ok? <==> files.result.Ok?)
            && (files.result.Ok? ==>
                  run.result.value.at == files.result.value && run.result.value.front.manifest == c.manifest
                  && run.result.value.front.raw == c.raw && run.result.value.front.signature == c.signature)
  {
    AfterIs(env, Index(c.manifest.files), Payload(0, 0, after));
    hide FrontRun, FilesRun, NextHeader, Index;
  }

  lemma PayloadTold(env: Env, m: Manifest, parts: seq<Part>, w: bytes, tail: bytes)
    requires ManifestOk(m, env.lower) && PartsTold(w, parts, tail)
    requires multiset(AllListed(env, parts)) == multiset(m.files)
    ensures LoopGives(env, Index(m.files), Payload(0, 0, w), parts, tail)
  {
    hide ManifestOk, PartsTold, Fit, Index, AllListed, LoopGives, ValidPath, DistinctPaths;
    ManifestApart(m, env.lower);
    IndexCovers(m.files);
    FitBag(env, parts, Index(m.files), m.files);
    LoopAccepts(env, Index(m.files), Payload(0, 0, w), parts, tail);
  }

  lemma StreamRead(env: Env, w: bytes, key: Option<bytes>, allowUnsigned: bool, c: Contents) returns (after: bytes)
    requires StreamTold(env, w, key, allowUnsigned, c)
    ensures FrontIs(FrontRun(env, w, key, allowUnsigned), c, after)
    ensures LoopGives(env, Index(c.manifest.files), Payload(0, 0, after), c.files, c.tail)
  {
    hide ManifestOk, Admissible, PartsTold, Trusted, NextHeader, NotSignature, Verdict, FrontRun, SignatureRun,
      TextAt, SignatureAt, LoopGives, Index, FrontIs, AllListed, Layout;
    ManifestExact(c.manifest, env.lower);
    var second;
    second, after := LayoutParts(w, c, c.tail);
    FilesNotSignature(env, after, c.files, c.tail, c.manifest);
    UnsignedAt(second, c.signature, after);
    SignatureTold(env, c, second, after, key, allowUnsigned);
    FrontTold(env, c, w, second, after, key, allowUnsigned);
    PayloadTold(env, c.manifest, c.files, after, c.tail);
  }

  lemma Streams(env: Env, archive: bytes, key: Option<bytes>, allowUnsigned: bool, c: Contents)
    ensures ArchiveTold(env, archive, key, allowUnsigned, c) <==>
            1 <= |archive| <= 1_073_741_824 && StreamTold(env, env.gunzip(archive).plain, key, allowUnsigned, c)
            && CleanEnd(env.gunzip(archive), c.tail)
  {
    ZerosAll(c.tail);
    hide PartsTold, Layout, Zeros, AllZero, Admissible, Trusted, AllListed;
  }

  lemma LoopIs(env: Env, inventory: map<bytes, FileEntry>, w: bytes, parts: seq<Part>, tail: bytes)
    requires LoopGives(env, inventory, Payload(0, 0, w), parts, tail)
    ensures var run := AfterFile(env, inventory, Payload(0, 0, w));
            run.events == AllEvents(Delivery(env, parts)) && run.result == Ok(Payload(|parts|, SizeOf(parts), tail))
  {
    hide AfterFile;
  }

  /** A told archive is accepted; the calls are its files in order, and the report
      its manifest, hashes and counts. */
  lemma ToldAccepted(env: Env, archive: bytes, key: Option<bytes>, allowUnsigned: bool, c: Contents)
    requires ArchiveTold(env, archive, key, allowUnsigned, c)
    ensures Accepts(env, archive, key, allowUnsigned)
    ensures var run := Transcript(env, archive, key, allowUnsigned);
            && run.events == [Begin(c.manifest, c.raw, c.signature)] + AllEvents(Delivery(env, c.files))
            && ReportOf(env, archive, run.result.value)
               == Report(c.manifest, env.sha256(archive), env.sha256(c.raw), c.signature.Some?, |c.files|, SizeOf(c.files))
  {
    hide ArchiveTold, StreamTold, FrontRun, FrontIs, Transcript, AfterFile, LoopGives, AllEvents, Delivery, Index, SizeOf,
      AllZero;
    Streams(env, archive, key, allowUnsigned, c);
    var after := StreamRead(env, env.gunzip(archive).plain, key, allowUnsigned, c);
    LoopIs(env, Index(c.manifest.files), after, c.files, c.tail);
    TranscriptIs(env, archive, key, allowUnsigned, c, after);
  }

  /** An accepted archive is a told one. */
  lemma AcceptedTold(env: Env, archive: bytes, key: Option<bytes>, allowUnsigned: bool) returns (c: Contents)
    requires Accepts(env, archive, key, allowUnsigned)
    ensures ArchiveTold(env, archive, key, allowUnsigned, c)
  {
    hide ArchiveTold, StreamTold, FrontRun, FrontIs, Transcript, AfterFile, Index, ManifestOk, Admissible, Verdict,
      PartsTold, Layout, Fit, AllListed, Trusted, TextAt, SignatureAt, DistinctPaths, AllZero, CleanEnd;
    var w := env.gunzip(archive).plain;
    AcceptsReads(env, archive, key, allowUnsigned);
    var second, after, head := FrontRead(env, w, key, allowUnsigned);
    TranscriptIs(env, archive, key, allowUnsigned, head, after);
    var files := head.manifest.files;
    VerdictExact(head.manifest, env.lower);
    ManifestExact(head.manifest, env.lower);
    ManifestApart(head.manifest, env.lower);
    IndexCovers(files);
    var parts := LoopParts(env, Index(files), Payload(0, 0, after));
    FitBag(env, parts, Index(files), files);
    c := head.(files := parts, tail := AfterFile(env, Index(files), Payload(0, 0, after)).result.value.rest);
    PartsLayout(w, c, second, after, c.tail);
    TrustedSame(env, head, c, key, allowUnsigned);
    StreamIs(env, w, key, allowUnsigned, c);
    Streams(env, archive, key, allowUnsigned, c);
  }

  lemma StreamIs(env: Env, w: bytes, key: Option<bytes>, allowUnsigned: bool, c: Contents)
    requires PartsTold(w, Layout(c), c.tail) && 1 <= |c.raw| <= 1_048_576
    requires env.decode(c.raw) == Some(c.manifest) && Admissible(c.manifest, env.lower)
    requires Trusted(env, c, key, allowUnsigned)
    requires multiset(AllListed(env, c.files)) == multiset(c.manifest.files)
    ensures StreamTold(env, w, key, allowUnsigned, c)
  {
    hide PartsTold, Layout, Admissible, Trusted, AllListed;
  }

  lemma TrustedSame(env: Env, c: Contents, d: Contents, key: Option<bytes>, allowUnsigned: bool)
    requires Trusted(env, c, key, allowUnsigned) && d.signature == c.signature && d.raw == c.raw
    ensures Trusted(env, d, key, allowUnsigned)
  {
  }

  lemma AcceptsReads(env: Env, archive: bytes, key: Option<bytes>, allowUnsigned: bool)
    requires Accepts(env, archive, key, allowUnsigned)
    ensures 1 <= |archive| <= 1_073_741_824 && |env.gunzip(archive).plain| <= STREAM_LIMIT
    ensures FrontRun(env, env.gunzip(archive).plain, key, allowUnsigned).Ok?
    ensures var run := Transcript(env, archive, key, allowUnsigned);
            run.result.Ok? && CleanEnd(env.gunzip(archive), run.result.value.at.rest)
  {
    hide FrontRun, FilesRun, Index, AllZero;
  }

  /** An archive is accepted exactly when it is a told one. */
  lemma ArchiveExact(env: Env, archive: bytes, key: Option<bytes>, allowUnsigned: bool)
    ensures Accepts(env, archive, key, allowUnsigned) <==>
            exists c :: ArchiveTold(env, archive, key, allowUnsigned, c)
  {
    hide *;
    if Accepts(env, archive, key, allowUnsigned) {
      var c := AcceptedTold(env, archive, key, allowUnsigned);
    }
    if c :| ArchiveTold(env, archive, key, allowUnsigned, c) {
      ToldAccepted(env, archive, key, allowUnsigned, c);
    }
  }

  lemma UnsignedAt(w: bytes, signature: Option<bytes>, after: bytes)
    requires SignatureAt(w, signature, after)
    ensures signature.None? ==> after == w
  {
  }

  lemma ManifestApart(m: Manifest, lower: bytes -> bytes)
    requires ManifestOk(m, lower)
    ensures DistinctPaths(m.files) && forall p <- Index(m.files) :: ValidPath(p, lower)
  {
    IndexCovers(m.files);
    hide DistinctPaths, Index;
    forall p | p in Index(m.files) ensures ValidPath(p, lower) {
      PlainPath(m, lower, Index(m.files)[p]);
    }
  }

  lemma ZerosAll(s: bytes)
    ensures Zeros(s) <==> AllZero(s)
  {
  }

  // ---------------------------------------------------------------- how much

  lemma {:induction false} ChunkDataAppend(a: seq<Event>, b: seq<Event>)
    ensures ChunkData(a + b) == ChunkData(a) + ChunkData(b)
  {
    if a == [] {
      assert a + b == b;
    } else {
      assert (a + b)[1..] == a[1..] + b;
      ChunkDataAppend(a[1..], b);
    }
  }

  lemma ChunkDataStart(e: FileEntry, data: bytes)
    ensures ChunkData([StartFile(e)] + Chunks(data)) == data
    ensures ChunkData([StartFile(e)] + Chunks(data) + [FinishFile]) == data
  {
    ChunksConcatenate(data);
    ChunkDataAppend([StartFile(e)], Chunks(data));
    ChunkDataAppend([StartFile(e)] + Chunks(data), [FinishFile]);
    assert ChunkData([]) == [];
    assert [StartFile(e)][1..] == [] && [FinishFile][1..] == [];
  }

  lemma FileWithin(env: Env, rest: bytes, e: FileEntry)
    ensures var run := FileRun(env, rest, e);
            |ChunkData(run.events)| + (if run.result.Ok? then |run.result.value| else 0) <= |rest|
  {
    hide Chunks, ChunkData, AllZero, PaddingLength;
    if |rest| < e.size {
      ChunkDataStart(e, rest[..WholeChunks(|rest|)]);
    } else {
      ChunkDataStart(e, rest[..e.size]);
    }
  }

  /** The payload loop passes on no more bytes than the stream has. */
  lemma {:induction false} LoopWithin(env: Env, inventory: map<bytes, FileEntry>, at: Payload)
    ensures |ChunkData(AfterFile(env, inventory, at).events)| <= |at.rest|
    decreases |at.rest|
  {
    hide NextHeader, FilesRun, AfterFile, FileRun, Expected, Chunks;
    AfterIs(env, inventory, at);
    assert ChunkData([]) == [];
    if NextHeader(at.rest).Ok? {
      var (next, rest) := NextHeader(at.rest).value;
      var on := at.(rest := rest);
      if next.None? || Expected(env, next.value, inventory).Err? {
        NoCalls(env, next, inventory, on);
      } else {
        var h, e := next.value, Expected(env, next.value, inventory).value;
        FilesTurn(env, h, inventory, on);
        FileWithin(env, rest, e);
        var file := FileRun(env, rest, e);
        if file.result.Ok? {
          var later := Payload(at.files + 1, at.total + h.size, file.result.value);
          LoopWithin(env, inventory - {h.name}, later);
          ChunkDataAppend(file.events, AfterFile(env, inventory - {h.name}, later).events);
        }
      }
    }
  }

  lemma NoCalls(env: Env, next: Option<Header>, inventory: map<bytes, FileEntry>, at: Payload)
    requires next.None? || Expected(env, next.value, inventory).Err?
    ensures FilesRun(env, next, inventory, at).events == []
  {
    hide Expected;
  }

  lemma NoData(events: seq<Event>)
    ensures events == [] ==> ChunkData(events) == []
    ensures events != [] && events[0].Begin? ==> ChunkData([events[0]]) == []
  {
    assert ChunkData([]) == [];
  }

  /** However large the decompressed stream, the sink is given no more than the limit. */
  lemma DeliveryBounded(env: Env, archive: bytes, key: Option<bytes>, allowUnsigned: bool)
    ensures |ChunkData(Transcript(env, archive, key, allowUnsigned).events)|
         <= 4_294_967_296 + 1_048_576 + 10_002 * 1024 + 1_048_576
  {
    hide FrontRun, FilesRun, AfterFile, NextHeader, Index, Chunks, TextAt, SignatureAt, Trusted, Verdict, ChunkData;
    var run := Transcript(env, archive, key, allowUnsigned);
    var w := Visible(env.gunzip(archive).plain);
    NoData(run.events);
    if run.events != [] {
      var second, after, c := FrontRead(env, w, key, allowUnsigned);
      PayloadWithin(w, second, c.signature, after, c.raw);
      var front := FrontRun(env, w, key, allowUnsigned).value;
      var inventory := Index(front.manifest.files);
      AfterIs(env, inventory, Payload(0, 0, after));
      LoopWithin(env, inventory, Payload(0, 0, after));
      ChunkDataAppend([run.events[0]], run.events[1..]);
      assert run.events == [run.events[0]] + run.events[1..];
      assert run.events[1..] == AfterFile(env, inventory, Payload(0, 0, after)).events;
    }
  }

  lemma PayloadWithin(w: bytes, second: bytes, signature: Option<bytes>, after: bytes, raw: bytes)
    requires TextAt(w, "manifest.json", raw, second) && SignatureAt(second, signature, after)
    ensures |after| <= |w|
  {
    hide PartTold;
  }
}
