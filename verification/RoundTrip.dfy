/** The package verifier recovers exactly what the package writer printed: entry by
    entry, then for a list of files, then for the whole stream with its manifest and
    signature. The one way in which printing valid files can fail is made exact. */
module RoundTrip {
  import opened Prelude
  import opened Paths
  import opened Package
  import opened Inventory
  import opened UstarHeader
  import opened Printer
  import opened Verifier
  import opened Soundness

  // --------------------------------------------------------------- one entry

  lemma HeaderAhead(path: bytes, size: nat, mode: nat) returns (header: bytes)
    requires Printable(path, size, mode) && HeaderFor(path, size, mode) != None
    ensures HeaderFor(path, size, mode) == Some(header)
    ensures |header| == 512 && !AllZero(header) && ParseBlock(header) == Ok(Header(path, size, mode))
  {
    HeaderRoundTrip(path, size, mode);
    header := HeaderFor(path, size, mode).value;
  }

  lemma EntryShape(path: bytes, mode: nat, data: bytes, entry: bytes) returns (header: bytes)
    requires EntryBytes(path, mode, data) == Some(entry)
    ensures HeaderFor(path, |data|, mode) == Some(header)
    ensures entry == header + data + Repeat(0, PaddingLength(|data|))
  {
    header := HeaderFor(path, |data|, mode).value;
  }

  /** The header block in front of an entry reads back. */
  lemma EntryReads(path: bytes, mode: nat, data: bytes, entry: bytes, stream: bytes, more: bytes)
    requires Printable(path, |data|, mode) && EntryBytes(path, mode, data) == Some(entry)
    requires stream == entry + more
    ensures NextHeader(stream) ==
              Ok((Some(Header(path, |data|, mode)), data + Repeat(0, PaddingLength(|data|)) + more))
  {
    hide *;
    var header := EntryShape(path, mode, data, entry);
    var same := HeaderAhead(path, |data|, mode);
    var pad := Repeat(0, PaddingLength(|data|));
    assert stream == header + (data + pad + more);
    BlockReads(header, Header(path, |data|, mode), data + pad + more);
  }

  lemma BlockReads(header: bytes, h: Header, more: bytes)
    requires |header| == 512 && !AllZero(header) && ParseBlock(header) == Ok(h)
    ensures NextHeader(header + more) == Ok((Some(h), more))
  {
    assert (header + more)[..512] == header && (header + more)[512..] == more;
  }

  lemma PaddingReads(size: nat, more: bytes)
    ensures SkipPadding(Repeat(0, PaddingLength(size)) + more, size) == Ok(more)
  {
    var n := PaddingLength(size);
    var s := Repeat(0, n) + more;
    assert s[..n] == Repeat(0, n) && s[n..] == more;
  }

  lemma DataAhead(data: bytes, pad: bytes, more: bytes)
    ensures (data + pad + more)[..|data|] == data && (data + pad + more)[|data|..] == pad + more
  {
  }

  lemma SmallReads(data: bytes, more: bytes)
    ensures TakeSmall(data + Repeat(0, PaddingLength(|data|)) + more, |data|) == Ok((data, more))
  {
    DataAhead(data, Repeat(0, PaddingLength(|data|)), more);
    PaddingReads(|data|, more);
  }

  lemma FileReads(env: Env, e: FileEntry, data: bytes, more: bytes)
    requires Genuine(env, Delivered(e, data))
    ensures FileRun(env, data + Repeat(0, PaddingLength(|data|)) + more, e) ==
              Run(FileEvents(Delivered(e, data)), Ok(more))
  {
    DataAhead(data, Repeat(0, PaddingLength(|data|)), more);
    PaddingReads(|data|, more);
  }

  lemma EndReads()
    ensures NextHeader(Repeat(0, 1024)) == Ok((None, []))
  {
    var z := Repeat(0, 1024);
    assert AllZero(z[..512]) && AllZero(z[512..1024]);
    assert z[1024..] == [];
  }

  // ------------------------------------------------------------- the payload

  function Deliveries(files: seq<Staged>): (ds: seq<Delivered>)
    ensures |ds| == |files|
  {
    seq(|files|, i requires 0 <= i < |files| => Delivered(files[i].entry, files[i].data))
  }

  function EntriesOf(files: seq<Staged>): (r: seq<FileEntry>)
    ensures |r| == |files|
  {
    seq(|files|, i requires 0 <= i < |files| => files[i].entry)
  }

  /** A staged file the builder may write and the verifier will recognize. */
  ghost predicate Writable(env: Env, f: Staged) {
    && Printable(f.entry.path, f.entry.size, f.entry.mode)
    && ValidPath(f.entry.path, env.lower)
    && Genuine(env, Delivered(f.entry, f.data))
  }

  lemma {:induction false} CollectHead(pieces: seq<Option<bytes>>)
    requires pieces != []
    ensures Collect(pieces) == Append(pieces[0], Collect(pieces[1..]))
  {
    var init, last := pieces[..|pieces| - 1], pieces[|pieces| - 1];
    if |pieces| == 1 {
      assert pieces[1..] == [];
      if pieces[0].Some? {
        assert [] + pieces[0].value == pieces[0].value + [];
      }
    } else {
      CollectHead(init);
      assert pieces[1..][..|pieces| - 2] == init[1..];
      if init[0].Some? && Collect(init[1..]).Some? && last.Some? {
        assert init[0].value + Collect(init[1..]).value + last.value
            == init[0].value + (Collect(init[1..]).value + last.value);
      }
    }
  }

  lemma {:induction false} PiecesTail(files: seq<Staged>)
    requires files != []
    ensures Pieces(files)[1..] == Pieces(files[1..])
  {
    var s, t := Pieces(files), Pieces(files[1..]);
    forall i | 0 <= i < |t| ensures s[1..][i] == t[i] {
      PieceAt(files, i + 1);
      PieceAt(files[1..], i);
    }
  }

  /** Printing a list of files is printing the first, then the others. */
  lemma PrintHead(files: seq<Staged>)
    requires files != [] && PrintFiles(files).Some?
    ensures FileBytes(files[0]).Some? && PrintFiles(files[1..]).Some?
    ensures PrintFiles(files).value == FileBytes(files[0]).value + PrintFiles(files[1..]).value
  {
    CollectHead(Pieces(files));
    PiecesTail(files);
    PieceAt(files, 0);
  }

  /** The table indexes the files that are still to come. */
  ghost predicate Awaits(inventory: map<bytes, FileEntry>, files: seq<Staged>) {
    && (forall i, j :: 0 <= i < j < |files| ==> files[i].entry.path != files[j].entry.path)
    && (forall f <- files :: f.entry.path in inventory && inventory[f.entry.path] == f.entry)
    && (forall p <- inventory :: exists f :: f in files && f.entry.path == p)
  }

  lemma AwaitsTail(inventory: map<bytes, FileEntry>, files: seq<Staged>)
    requires files != [] && Awaits(inventory, files)
    ensures files[0].entry.path in inventory && inventory[files[0].entry.path] == files[0].entry
    ensures Awaits(inventory - {files[0].entry.path}, files[1..])
  {
    var rest := inventory - {files[0].entry.path};
    forall p | p in rest ensures exists f :: f in files[1..] && f.entry.path == p {
      var f :| f in files && f.entry.path == p;
      assert f in files[1..];
    }
  }

  lemma ExpectedReads(env: Env, f: Staged, inventory: map<bytes, FileEntry>)
    requires Writable(env, f) && f.entry.path in inventory && inventory[f.entry.path] == f.entry
    ensures Expected(env, Header(f.entry.path, |f.data|, f.entry.mode), inventory) == Ok(f.entry)
  {
  }

  function PayloadEnd(files: seq<Staged>, n: nat, total: nat): Payload {
    Payload(n + |files|, total + TotalSize(EntriesOf(files)), [])
  }

  function DeliveredRun(files: seq<Staged>, n: nat, total: nat): Run<Payload> {
    Run(AllEvents(Deliveries(files)), Ok(PayloadEnd(files, n, total)))
  }

  lemma DeliveredStep(env: Env, f: Staged, files: seq<Staged>, n: nat, total: nat)
    requires Writable(env, f)
    ensures DeliveredRun([f] + files, n, total) ==
              Run(FileEvents(Delivered(f.entry, f.data))
                  + DeliveredRun(files, n + 1, total + f.entry.size).events,
                  DeliveredRun(files, n + 1, total + f.entry.size).result)
  {
    var all := [f] + files;
    assert Deliveries(all)[1..] == Deliveries(files);
    assert Sizes(EntriesOf(all)) == [f.entry.size] + Sizes(EntriesOf(files));
    SumAppend([f.entry.size], Sizes(EntriesOf(files)));
    assert [f.entry.size][..0] == [];
    assert Sum([f.entry.size]) == f.entry.size;
  }

  lemma LoopEnds(env: Env, inventory: map<bytes, FileEntry>, printed: bytes, n: nat, total: nat)
    requires PrintFiles([]) == Some(printed) && Awaits(inventory, [])
    ensures AfterFile(env, inventory, Payload(n, total, printed + Repeat(0, 1024)))
         == DeliveredRun([], n, total)
  {
    assert printed + Repeat(0, 1024) == Repeat(0, 1024);
    EndReads();
    assert inventory == map[];
    assert Sizes(EntriesOf([])) == [];
  }

  /** The payload loop over printed files delivers them all, in order. */
  lemma {:induction false} FilesRead(env: Env, files: seq<Staged>, inventory: map<bytes, FileEntry>,
                                     printed: bytes, n: nat, total: nat)
    requires PrintFiles(files) == Some(printed) && Awaits(inventory, files)
    requires forall f <- files :: Writable(env, f)
    ensures AfterFile(env, inventory, Payload(n, total, printed + Repeat(0, 1024)))
         == DeliveredRun(files, n, total)
    decreases |files|
  {
    hide *;
    var end := Repeat(0, 1024);
    if files == [] {
      LoopEnds(env, inventory, printed, n, total);
    } else {
      PrintHead(files);
      AwaitsTail(inventory, files);
      var f, others := files[0], PrintFiles(files[1..]).value;
      var head := FileBytes(f).value;
      assert printed + end == head + (others + end);
      FileTurn(env, f, head, inventory, n, total, printed + end, others + end);
      FilesRead(env, files[1..], inventory - {f.entry.path}, others, n + 1, total + f.entry.size);
      DeliveredStep(env, f, files[1..], n, total);
      assert [f] + files[1..] == files;
    }
  }

  /** One turn of the payload loop, from what its parts decide. */
  lemma Turn(env: Env, inventory: map<bytes, FileEntry>, n: nat, total: nat, s0: bytes,
             h: Header, s1: bytes, e: FileEntry, events: seq<Event>, s2: bytes)
    requires NextHeader(s0) == Ok((Some(h), s1))
    requires Expected(env, h, inventory) == Ok(e)
    requires FileRun(env, s1, e) == Run(events, Ok(s2))
    ensures var tail := AfterFile(env, inventory - {h.name}, Payload(n + 1, total + h.size, s2));
            AfterFile(env, inventory, Payload(n, total, s0)) == Run(events + tail.events, tail.result)
  {
    hide NextHeader, Expected, FileRun;
  }

  lemma FileTurn(env: Env, f: Staged, head: bytes, inventory: map<bytes, FileEntry>,
                 n: nat, total: nat, stream: bytes, more: bytes)
    requires Writable(env, f) && FileBytes(f) == Some(head) && stream == head + more
    requires f.entry.path in inventory && inventory[f.entry.path] == f.entry
    ensures var tail := AfterFile(env, inventory - {f.entry.path},
                                  Payload(n + 1, total + f.entry.size, more));
            AfterFile(env, inventory, Payload(n, total, stream)) ==
              Run(FileEvents(Delivered(f.entry, f.data)) + tail.events, tail.result)
  {
    hide AfterFile, FilesRun, NextHeader, EntryBytes, Expected, FileRun, Printable, ValidPath, FileEvents;
    var h := Header(f.entry.path, |f.data|, f.entry.mode);
    EntryReads(f.entry.path, f.entry.mode, f.data, head, stream, more);
    ExpectedReads(env, f, inventory);
    FileReads(env, f.entry, f.data, more);
    Turn(env, inventory, n, total, stream, h, f.data + Repeat(0, PaddingLength(|f.data|)) + more,
         f.entry, FileEvents(Delivered(f.entry, f.data)), more);
  }

  // ---------------------------------------------------------------- the budget

  lemma EntryLength(path: bytes, mode: nat, data: bytes)
    requires EntryBytes(path, mode, data).Some?
    ensures |EntryBytes(path, mode, data).value| <= 1023 + |data|
  {
    var entry := EntryBytes(path, mode, data).value;
    var header := EntryShape(path, mode, data, entry);
    assert |header| == 512;
  }

  lemma {:induction false} FilesLength(files: seq<Staged>)
    requires PrintFiles(files).Some?
    requires forall f <- files :: |f.data| == f.entry.size
    ensures |PrintFiles(files).value| <= 1023 * |files| + TotalSize(EntriesOf(files))
  {
    if files != [] {
      hide EntryBytes;
      PrintHead(files);
      FilesLength(files[1..]);
      EntryLength(files[0].entry.path, files[0].entry.mode, files[0].data);
      EntriesTotal(files);
    }
  }

  lemma EntriesTotal(files: seq<Staged>)
    requires files != []
    ensures TotalSize(EntriesOf(files)) == files[0].entry.size + TotalSize(EntriesOf(files[1..]))
  {
    var f := files[0].entry;
    assert Sizes(EntriesOf(files)) == [f.size] + Sizes(EntriesOf(files[1..]));
    SumAppend([f.size], Sizes(EntriesOf(files[1..])));
    assert [f.size][..0] == [];
    assert Sum([f.size]) == f.size;
  }

  // --------------------------------------------------------------- the metadata

  /** What `write_archive` is given: a manifest that describes the staged files,
      its text, and the signature text if there is one. */
  ghost predicate Buildable(env: Env, raw: bytes, m: Manifest, signature: Option<bytes>, files: seq<Staged>) {
    && env.decode(raw) == Some(m) && 0 < |raw| <= MAX_MANIFEST_BYTES
    && (signature.Some? ==> 0 < |signature.value| <= 128)
    && ManifestOk(m, env.lower) && EntriesOf(files) == m.files
    && forall f <- files :: Utf8(f.entry.path) && Genuine(env, Delivered(f.entry, f.data))
  }

  /** The caller's trust settings admit this signature text. */
  predicate Trusts(env: Env, raw: bytes, signature: Option<bytes>, key: Option<bytes>, allowUnsigned: bool) {
    match signature
    case None => allowUnsigned && key.None?
    case Some(text) =>
      key.Some? && env.signatureOf(text).Some? && env.signed(key.value, raw, env.signatureOf(text).value)
  }

  lemma StagedWritable(env: Env, raw: bytes, m: Manifest, signature: Option<bytes>, files: seq<Staged>)
    requires Buildable(env, raw, m, signature, files)
    ensures forall f <- files :: Writable(env, f)
  {
    forall f | f in files ensures Writable(env, f) {
      var i :| 0 <= i < |files| && files[i] == f;
      EntryWritable(env, m, f, i);
    }
  }

  lemma EntryWritable(env: Env, m: Manifest, f: Staged, i: nat)
    requires ManifestOk(m, env.lower) && i < |m.files| && m.files[i] == f.entry
    requires Utf8(f.entry.path) && Genuine(env, Delivered(f.entry, f.data))
    ensures Writable(env, f)
  {
    hide HeaderOk, ValidatePath, Utf8, NoConflict;
    assert EntryCheck(env.lower)(m.files[i]);
    ValidPathShape(f.entry.path, env.lower);
  }

  lemma StagedAwaited(env: Env, m: Manifest, files: seq<Staged>)
    requires ManifestOk(m, env.lower) && EntriesOf(files) == m.files
    ensures Awaits(Index(m.files), files)
  {
    hide HeaderOk, NoConflict, EntryCheck, AllPresent, LaunchersOk, IdentitiesMatch, TotalSize, Index;
    IndexKeys(m.files);
    assert forall i :: 0 <= i < |files| ==> files[i].entry == m.files[i] && files[i] in files;
  }

  lemma ManifestPrintable(raw: bytes)
    requires |raw| <= MAX_MANIFEST_BYTES
    ensures Printable(MANIFEST_NAME, |raw|, MODE_PLAIN) && Printable(SIGNATURE_NAME, |raw|, MODE_PLAIN)
    ensures MANIFEST_NAME != SIGNATURE_NAME
  {
    hide Utf8, Ascii;
    AsciiText("manifest.json");
    AsciiText("manifest.sig");
    assert |MANIFEST_NAME| != |SIGNATURE_NAME|;
  }

  lemma AsciiText(text: string)
    requires forall i :: 0 <= i < |text| ==> 0 < text[i] as int < 0x80 && text[i] != '/'
    ensures Utf8(Ascii(text)) && 0 !in Ascii(text) && SLASH !in Ascii(text)
  {
    AsciiUtf8(Ascii(text));
  }

  lemma {:induction false} AsciiUtf8(s: bytes)
    requires forall i :: 0 <= i < |s| ==> s[i] < 0x80
    ensures Utf8(s)
  {
    if s != [] {
      AsciiUtf8(s[1..]);
    }
  }

  /** The header search right after the metadata. */
  function Opening(m: Manifest, raw: bytes, signature: Option<bytes>, stream: bytes): Result<Front, Error> {
    match NextHeader(stream)
    case Err(e) => Err(e)
    case Ok((next, rest)) => Ok(Front(m, raw, signature, next, rest))
  }

  lemma SignatureReads(env: Env, m: Manifest, raw: bytes, text: bytes, entry: bytes, more: bytes,
                       key: Option<bytes>, allowUnsigned: bool)
    requires 0 < |text| <= 128 && EntryBytes(SIGNATURE_NAME, MODE_PLAIN, text) == Some(entry)
    requires Trusts(env, raw, Some(text), key, allowUnsigned)
    ensures SignatureRun(env, m, raw, entry + more, key, allowUnsigned) == Opening(m, raw, Some(text), more)
  {
    hide NextHeader, EntryBytes, TakeSmall, Printable;
    ManifestPrintable(text);
    EntryReads(SIGNATURE_NAME, MODE_PLAIN, text, entry, entry + more, more);
    SmallReads(text, more);
  }

  /** An unsigned stream goes straight on to a payload header. */
  lemma UnsignedReads(env: Env, m: Manifest, raw: bytes, files: seq<Staged>, stream: bytes,
                      key: Option<bytes>, allowUnsigned: bool)
    requires files != [] && Writable(env, files[0]) && FileBytes(files[0]).Some?
    requires FileBytes(files[0]).value <= stream
    requires Trusts(env, raw, None, key, allowUnsigned)
    ensures SignatureRun(env, m, raw, stream, key, allowUnsigned) == Opening(m, raw, None, stream)
  {
    hide NextHeader, EntryBytes, Printable, ValidatePath;
    var f := files[0];
    var head := FileBytes(f).value;
    ValidPathShape(f.entry.path, env.lower);
    AsciiText("manifest.sig");
    EntryReads(f.entry.path, f.entry.mode, f.data, head, stream, stream[|head|..]);
  }

  lemma ManifestReads(env: Env, m: Manifest, raw: bytes, entry: bytes, more: bytes,
                      key: Option<bytes>, allowUnsigned: bool)
    requires 0 < |raw| <= MAX_MANIFEST_BYTES && EntryBytes(MANIFEST_NAME, MODE_PLAIN, raw) == Some(entry)
    requires env.decode(raw) == Some(m) && ManifestOk(m, env.lower)
    ensures FrontRun(env, entry + more, key, allowUnsigned) == SignatureRun(env, m, raw, more, key, allowUnsigned)
  {
    VerdictExact(m, env.lower);
    hide NextHeader, EntryBytes, TakeSmall, Printable, ManifestOk, SignatureRun, Verdict;
    ManifestPrintable(raw);
    EntryReads(MANIFEST_NAME, MODE_PLAIN, raw, entry, entry + more, more);
    SmallReads(raw, more);
  }

  /** The front part of a printed stream reads back. */
  lemma FrontReads(env: Env, raw: bytes, m: Manifest, signature: Option<bytes>, files: seq<Staged>,
                   meta: bytes, payload: bytes, key: Option<bytes>, allowUnsigned: bool)
    requires files != [] && Buildable(env, raw, m, signature, files)
    requires Trusts(env, raw, signature, key, allowUnsigned)
    requires PrintMetadata(raw, signature) == Some(meta)
    requires FileBytes(files[0]).Some? && FileBytes(files[0]).value <= payload
    ensures FrontRun(env, meta + payload, key, allowUnsigned) == Opening(m, raw, signature, payload)
  {
    hide FrontRun, SignatureRun, EntryBytes, Opening, ManifestOk, Genuine, FileBytes, Writable, Trusts, Utf8;
    hide EntriesOf;
    var entry := EntryBytes(MANIFEST_NAME, MODE_PLAIN, raw).value;
    StagedWritable(env, raw, m, signature, files);
    assert files[0] in files;
    if signature.None? {
      assert meta + payload == entry + payload;
      ManifestReads(env, m, raw, entry, payload, key, allowUnsigned);
      UnsignedReads(env, m, raw, files, payload, key, allowUnsigned);
    } else {
      var text := signature.value;
      var sig := EntryBytes(SIGNATURE_NAME, MODE_PLAIN, text).value;
      assert meta + payload == entry + (sig + payload);
      ManifestReads(env, m, raw, entry, sig + payload, key, allowUnsigned);
      SignatureReads(env, m, raw, text, sig, payload, key, allowUnsigned);
    }
  }

  lemma FilesPresent(env: Env, raw: bytes, m: Manifest, signature: Option<bytes>, files: seq<Staged>)
    requires Buildable(env, raw, m, signature, files)
    ensures files != []
  {
    hide HeaderOk, ListOk, NoConflict, Utf8, Genuine;
    assert |m.files| > 0;
  }

  /** The printed stream stays below the reader's stream limit. */
  lemma WithinLimit(raw: bytes, signature: Option<bytes>, files: seq<Staged>, meta: bytes, printed: bytes)
    requires |raw| <= MAX_MANIFEST_BYTES && (signature.Some? ==> |signature.value| <= 128)
    requires |files| <= MAX_FILES && TotalSize(EntriesOf(files)) <= MAX_TOTAL_BYTES
    requires forall f <- files :: |f.data| == f.entry.size
    requires PrintMetadata(raw, signature) == Some(meta) && PrintFiles(files) == Some(printed)
    ensures |meta + printed + Repeat(0, 1024)| < STREAM_LIMIT
  {
    hide EntryBytes, PrintFiles, TotalSize, EntriesOf;
    FilesLength(files);
    EntryLength(MANIFEST_NAME, MODE_PLAIN, raw);
    if signature.Some? {
      EntryLength(SIGNATURE_NAME, MODE_PLAIN, signature.value);
    }
  }

  lemma InventoryBounds(env: Env, m: Manifest, files: seq<Staged>)
    requires ManifestOk(m, env.lower) && EntriesOf(files) == m.files
    ensures |files| <= MAX_FILES && TotalSize(EntriesOf(files)) <= MAX_TOTAL_BYTES
  {
    hide HeaderOk, NoConflict, EntryCheck, AllPresent, LaunchersOk, IdentitiesMatch, TotalSize;
  }

  lemma ArchiveParts(raw: bytes, signature: Option<bytes>, files: seq<Staged>, plain: bytes)
    returns (meta: bytes, printed: bytes)
    requires PrintArchive(raw, signature, files) == Some(plain)
    ensures PrintMetadata(raw, signature) == Some(meta) && PrintFiles(files) == Some(printed)
    ensures plain == meta + (printed + Repeat(0, 1024)) == meta + printed + Repeat(0, 1024)
  {
    meta, printed := PrintMetadata(raw, signature).value, PrintFiles(files).value;
  }

  /** Reading the whole plain stream back, from its front to its end blocks. */
  lemma StreamReads(env: Env, raw: bytes, m: Manifest, signature: Option<bytes>, files: seq<Staged>,
                    meta: bytes, printed: bytes, key: Option<bytes>, allowUnsigned: bool)
    returns (front: Front)
    requires Buildable(env, raw, m, signature, files) && Trusts(env, raw, signature, key, allowUnsigned)
    requires PrintMetadata(raw, signature) == Some(meta) && PrintFiles(files) == Some(printed)
    ensures FrontRun(env, meta + (printed + Repeat(0, 1024)), key, allowUnsigned) == Ok(front)
    ensures front.manifest == m && front.raw == raw && front.signature == signature
    ensures FilesRun(env, front.next, Index(m.files), Payload(0, 0, front.rest)) == DeliveredRun(files, 0, 0)
  {
    hide ManifestOk, PrintMetadata, FrontRun, FilesRun, NextHeader, Index, Awaits, Writable, FileBytes, Trusts,
      Utf8, Genuine, PrintFiles, EntriesOf;
    var payload := printed + Repeat(0, 1024);
    FilesPresent(env, raw, m, signature, files);
    StagedWritable(env, raw, m, signature, files);
    StagedAwaited(env, m, files);
    PrintHead(files);
    assert payload == FileBytes(files[0]).value + (PrintFiles(files[1..]).value + Repeat(0, 1024));
    FrontReads(env, raw, m, signature, files, meta, payload, key, allowUnsigned);
    FilesRead(env, files, Index(m.files), printed, 0, 0);
    front := Opening(m, raw, signature, payload).value;
  }

  /** Whatever `write_archive` prints, the verifier accepts under any trust
      settings that fit the signature: it delivers exactly the staged files, in
      order and with their bytes, and reports the printed manifest, whether it
      was signed, and the file count and byte sum. */
  lemma ArchiveRoundTrip(env: Env, archive: bytes, plain: bytes, raw: bytes, m: Manifest,
                         signature: Option<bytes>, files: seq<Staged>, key: Option<bytes>, allowUnsigned: bool)
    requires Buildable(env, raw, m, signature, files) && Trusts(env, raw, signature, key, allowUnsigned)
    requires PrintArchive(raw, signature, files) == Some(plain)
    requires 0 < |archive| <= MAX_ARCHIVE_BYTES && env.gunzip(archive) == Gunzipped(plain, true, false)
    ensures Accepts(env, archive, key, allowUnsigned)
    ensures var run := Transcript(env, archive, key, allowUnsigned);
            && run.events == [Begin(m, raw, signature)] + AllEvents(Deliveries(files))
            && ReportOf(env, archive, run.result.value)
               == Report(m, env.sha256(archive), env.sha256(raw), signature.Some?, |files|, TotalSize(m.files))
  {
    hide ManifestOk, FrontRun, FilesRun, Index, Utf8, PrintArchive, PrintFiles, PrintMetadata, Trusts, TotalSize,
      Deliveries, AllEvents;
    var meta, printed := ArchiveParts(raw, signature, files, plain);
    var front := StreamReads(env, raw, m, signature, files, meta, printed, key, allowUnsigned);
    InventoryBounds(env, m, files);
    WithinLimit(raw, signature, files, meta, printed);
  }

  // --------------------------------------------------------- when printing fails

  /** The archive format has no place for this path. */
  ghost predicate Unsplittable(path: bytes) {
    |path| > 100 && forall o :: 0 <= o < |path| ==> !LegalCut(path, o)
  }

  lemma {:induction false} PiecesExist(files: seq<Staged>)
    ensures PrintFiles(files).None? <==> exists i :: 0 <= i < |files| && FileBytes(files[i]).None?
  {
    hide *;
    if files != [] {
      var init, last := files[..|files| - 1], files[|files| - 1];
      PiecesExist(init);
      PrintsLast(files);
      if i :| 0 <= i < |init| && FileBytes(init[i]).None? {
        assert FileBytes(files[i]).None?;
      }
      if i :| 0 <= i < |files| && FileBytes(files[i]).None? {
        assert i < |init| ==> FileBytes(init[i]).None?;
      }
    } else {
      PrintsNone();
    }
  }

  lemma PrintsNone()
    ensures PrintFiles([]) == Some([])
  {
  }

  lemma PrintsLast(files: seq<Staged>)
    requires files != []
    ensures PrintFiles(files).None? <==>
            PrintFiles(files[..|files| - 1]).None? || FileBytes(files[|files| - 1]).None?
  {
    hide FileBytes;
    assert Pieces(files)[..|files| - 1] == Pieces(files[..|files| - 1]);
  }

  lemma EntryPrints(f: Staged)
    requires Printable(f.entry.path, |f.data|, f.entry.mode)
    ensures FileBytes(f).None? <==> Unsplittable(f.entry.path)
  {
    hide Printable, Fits, HeaderBlock;
    CutExact(f.entry.path);
    if CutPath(f.entry.path).Some? {
      PrintableFits(f.entry.path, |f.data|, f.entry.mode);
    }
  }

  /** Printing fails exactly when some staged path has no legal cut. */
  lemma PrintsUnlessUnsplittable(env: Env, files: seq<Staged>)
    requires forall f <- files :: Writable(env, f)
    ensures PrintFiles(files).None? <==> exists f <- files :: Unsplittable(f.entry.path)
  {
    hide Writable, Unsplittable, FileBytes, PrintFiles;
    PiecesExist(files);
    forall i | 0 <= i < |files|
      ensures FileBytes(files[i]).None? <==> Unsplittable(files[i].entry.path)
    {
      WritablePrints(env, files[i]);
    }
    if f :| f in files && Unsplittable(f.entry.path) {
      var i :| 0 <= i < |files| && files[i] == f;
      assert FileBytes(files[i]).None?;
    }
  }

  lemma WritablePrints(env: Env, f: Staged)
    requires Writable(env, f)
    ensures FileBytes(f).None? <==> Unsplittable(f.entry.path)
  {
    hide ValidPath, Unsplittable, FileBytes, Printable;
    EntryPrints(f);
  }

  const LONG_PATH: bytes := Ascii("docs") + [SLASH] + Repeat(0x61, 160) + [SLASH, 0x71]

  lemma LongPathBytes()
    ensures |LONG_PATH| == 167 && LONG_PATH[..4] == Ascii("docs") && LONG_PATH[4] == LONG_PATH[165] == SLASH
    ensures LONG_PATH[166] == 0x71 && forall i :: 5 <= i < 165 ==> LONG_PATH[i] == 0x61
    ensures forall i :: 0 <= i < 4 ==> 0x61 <= LONG_PATH[i] <= 0x7A
  {
  }

  lemma LongPathSplits()
    ensures Split(LONG_PATH) == [Ascii("docs"), Repeat(0x61, 160), [0x71]]
  {
    hide Ascii;
    LongPathBytes();
    var p := LONG_PATH;
    FindIs(p, SLASH, 4);
    var q := p[5..];
    assert forall i :: 0 <= i < |q| ==> q[i] == p[i + 5];
    FindIs(q, SLASH, 160);
    assert q[..160] == Repeat(0x61, 160);
    var r := q[161..];
    assert r == [0x71];
    FindIs(r, SLASH, 1);
    assert Split(r) == [r];
    assert Split(q) == [q[..160]] + Split(r);
  }

  lemma NoForbiddenPart(part: bytes, lower: bytes -> bytes)
    requires lower(part) == part
    requires |part| == 1 || |part| == 160 || (|part| == 4 && part[1] == 0x6F)
    ensures lower(part) !in FORBIDDEN
  {
    assert forall k :: 0 <= k < |FORBIDDEN| ==> |FORBIDDEN[k]| != 1 && |FORBIDDEN[k]| < 160;
    assert forall k :: 0 <= k < |FORBIDDEN| && |FORBIDDEN[k]| == 4 ==> FORBIDDEN[k][1] != 0x6F;
  }

  lemma NoForbiddenSuffix(p: bytes, lower: bytes -> bytes)
    requires lower(p) == p
    requires p != [] && p[|p| - 1] == 0x71
    ensures forall k :: 0 <= k < |SUFFIXES| ==> !HasSuffix(lower(p), SUFFIXES[k])
  {
    forall k | 0 <= k < |SUFFIXES| ensures !HasSuffix(lower(p), SUFFIXES[k]) {
      var suffix := SUFFIXES[k];
      assert suffix != [] && suffix[|suffix| - 1] != 0x71;
      if |suffix| <= |p| {
        assert p[|p| - |suffix|..][|suffix| - 1] == p[|p| - 1];
      }
    }
  }

  lemma LongPathText()
    ensures !BadText(LONG_PATH)
  {
    hide Ascii;
    LongPathBytes();
    var p := LONG_PATH;
    assert forall i :: 0 <= i < |p| ==> p[i] == SLASH || 0x61 <= p[i] <= 0x7A;
  }

  lemma LongPathRoot()
    ensures !Misplaced(LONG_PATH, Ascii("docs"))
  {
    assert |Ascii("bin")| == 3 && |Ascii("engine")| == 6;
    assert Ascii("docs") == ROOTS[5];
  }

  lemma LongPathParts(parts: seq<bytes>, lower: bytes -> bytes)
    requires KeepsLongPath(lower)
    requires parts == [Ascii("docs"), Repeat(0x61, 160), [0x71]]
    ensures !BadParts(parts) && !Forbidden(LONG_PATH, parts, lower)
  {
    hide HasSuffix;
    LongPathBytes();
    assert Ascii("docs")[1] == 0x6F && Ascii(".")[0] == 0x2E && |Ascii(".")| == 1 && |Ascii("..")| == 2;
    hide Ascii, Repeat;
    NoForbiddenPart(parts[0], lower);
    NoForbiddenPart(parts[1], lower);
    NoForbiddenPart(parts[2], lower);
    NoForbiddenSuffix(LONG_PATH, lower);
  }

  /** Lower-casing leaves these lower-case texts alone. */
  predicate KeepsLongPath(lower: bytes -> bytes) {
    && lower(LONG_PATH) == LONG_PATH && lower(Ascii("docs")) == Ascii("docs")
    && lower(Repeat(0x61, 160)) == Repeat(0x61, 160) && lower([0x71]) == [0x71]
  }

  /** The two layers disagree: `validate_path` accepts a path that `tar_header`
      cannot print, because of its long middle component. */
  lemma ValidYetUnsplittable(lower: bytes -> bytes)
    requires KeepsLongPath(lower)
    ensures ValidPath(LONG_PATH, lower) && Unsplittable(LONG_PATH) && CutPath(LONG_PATH).None?
  {
    hide Ascii, Split, BadText, BadParts, Misplaced, Forbidden, FindCut;
    LongPathBytes();
    LongPathSplits();
    LongPathText();
    LongPathRoot();
    LongPathParts(Split(LONG_PATH), lower);
    CutExact(LONG_PATH);
  }
}
