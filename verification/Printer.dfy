/** Writing a package (src/artifact/build.rs, `write_archive` and its helpers):
    metadata entries, payload entries and the end-of-archive blocks, through a
    compressor whose output is held to a budget. */
module Printer {
  import opened Prelude
  import opened Package
  import opened UstarHeader

  const MANIFEST_NAME: bytes := Ascii("manifest.json")
  const SIGNATURE_NAME: bytes := Ascii("manifest.sig")

  datatype Staged = Staged(entry: FileEntry, data: bytes)

  function PaddingLength(size: nat): nat {
    (512 - size % 512) % 512
  }

  function HeaderFor(path: bytes, size: nat, mode: nat): Option<bytes> {
    match CutPath(path)
    case None => None
    case Some((prefix, name)) =>
      if Fits(prefix, name, size, mode) then Some(HeaderBlock(prefix, name, size, mode)) else None
  }

  /** One archive entry: header, contents, zeros up to the next block. */
  function EntryBytes(path: bytes, mode: nat, data: bytes): Option<bytes> {
    match HeaderFor(path, |data|, mode)
    case None => None
    case Some(header) => Some(header + data + Repeat(0, PaddingLength(|data|)))
  }

  function Append(a: Option<bytes>, b: Option<bytes>): Option<bytes> {
    if a.Some? && b.Some? then Some(a.value + b.value) else None
  }

  /** All pieces in a row, if every one of them exists. */
  function Collect(pieces: seq<Option<bytes>>): Option<bytes> {
    if pieces == [] then Some([])
    else Append(Collect(pieces[..|pieces| - 1]), pieces[|pieces| - 1])
  }

  function FileBytes(f: Staged): Option<bytes> {
    EntryBytes(f.entry.path, f.entry.mode, f.data)
  }

  function Pieces(files: seq<Staged>): (r: seq<Option<bytes>>)
    ensures |r| == |files|
  {
    if files == [] then [] else Pieces(files[..|files| - 1]) + [FileBytes(files[|files| - 1])]
  }

  lemma {:induction false} PieceAt(files: seq<Staged>, i: nat)
    requires i < |files|
    ensures Pieces(files)[i] == FileBytes(files[i])
  {
    if i < |files| - 1 {
      PieceAt(files[..|files| - 1], i);
    }
  }

  function PrintFiles(files: seq<Staged>): Option<bytes> {
    Collect(Pieces(files))
  }

  function PrintMetadata(manifest: bytes, signature: Option<bytes>): Option<bytes> {
    Append(EntryBytes(MANIFEST_NAME, MODE_PLAIN, manifest),
           if signature.None? then Some([])
           else EntryBytes(SIGNATURE_NAME, MODE_PLAIN, signature.value))
  }

  /** The uncompressed archive, or nothing when some path has no header. */
  function PrintArchive(manifest: bytes, signature: Option<bytes>, files: seq<Staged>): Option<bytes> {
    Append(Append(PrintMetadata(manifest, signature), PrintFiles(files)), Some(Repeat(0, 1024)))
  }

  // ------------------------------------------------------------- the writers

  /** `ArchiveWriter`: passes bytes on while the budget lasts. */
  class ArchiveWriter {
    var output: bytes
    var remaining: nat

    constructor (budget: nat)
      ensures output == [] && remaining == budget
    {
      output, remaining := [], budget;
    }

    method Write(data: bytes) returns (ok: bool)
      modifies this
      ensures ok <==> |data| <= old(remaining)
      ensures output == if ok then old(output) + data else old(output)
      ensures remaining == old(remaining) - if ok then |data| else 0
    {
      ok := |data| <= remaining;
      if ok {
        output := output + data;
        remaining := remaining - |data|;
      }
    }
  }

  /** The compressor hands its output over in pieces of its own choosing; how it
      cuts them does not change whether the budget suffices. */
  method Drain(writer: ArchiveWriter, compressed: bytes) returns (ok: bool)
    modifies writer
    ensures ok <==> |compressed| <= old(writer.remaining)
    ensures ok ==> writer.output == old(writer.output) + compressed
  {
    var sent := 0;
    while sent < |compressed|
      invariant 0 <= sent <= |compressed|
      invariant writer.output == old(writer.output) + compressed[..sent]
      invariant writer.remaining + sent == old(writer.remaining)
    {
      var piece: int := *;
      if piece <= 0 || piece > |compressed| - sent {
        piece := |compressed| - sent;
      }
      ok := writer.Write(compressed[sent..sent + piece]);
      if !ok {
        return;
      }
      assert compressed[..sent + piece] == compressed[..sent] + compressed[sent..sent + piece];
      sent := sent + piece;
    }
    assert compressed[..sent] == compressed;
    ok := true;
  }

  /** The uncompressed side of the compressor. */
  class TarStream {
    var plain: bytes

    constructor ()
      ensures plain == []
    {
      plain := [];
    }

    method WriteAll(data: bytes)
      modifies this
      ensures plain == old(plain) + data
    {
      plain := plain + data;
    }
  }

  method WritePadding(tar: TarStream, size: nat)
    modifies tar
    ensures tar.plain == old(tar.plain) + Repeat(0, PaddingLength(size))
  {
    tar.WriteAll(Repeat(0, PaddingLength(size)));
  }

  method WriteHeader(tar: TarStream, path: bytes, size: nat, mode: nat) returns (ok: bool)
    modifies tar
    ensures ok <==> HeaderFor(path, size, mode).Some?
    ensures tar.plain == old(tar.plain) + if ok then HeaderFor(path, size, mode).value else []
  {
    var header := TarHeader(path, size, mode);
    ok := header.Ok?;
    if CutPath(path).Some? {
      CutFits(path);
    }
    if ok {
      tar.WriteAll(header.value);
    }
  }

  method WriteSmallEntry(tar: TarStream, name: bytes, data: bytes) returns (ok: bool)
    modifies tar
    ensures ok <==> EntryBytes(name, MODE_PLAIN, data).Some?
    ensures ok ==> tar.plain == old(tar.plain) + EntryBytes(name, MODE_PLAIN, data).value
  {
    ok := WriteHeader(tar, name, |data|, MODE_PLAIN);
    if ok {
      tar.WriteAll(data);
      WritePadding(tar, |data|);
    }
  }

  /** A staged file still has the size and hash that its entry records. */
  predicate Unchanged(f: Staged, sha256: bytes -> bytes) {
    |f.data| == f.entry.size && (f.entry.sha256 == [] || f.entry.sha256 == sha256(f.data))
  }

  method WriteFile(tar: TarStream, f: Staged, ghost piece: Option<bytes>, sha256: bytes -> bytes)
    returns (r: Result<(), Error>)
    requires piece == FileBytes(f)
    modifies tar
    ensures r.Ok? <==> piece.Some? && Unchanged(f, sha256)
    ensures r.Ok? ==> tar.plain == old(tar.plain) + piece.value
    ensures r.Err? ==> r.error in {BuildIo, InputChanged}
    ensures r == Err(InputChanged) ==> !Unchanged(f, sha256)
  {
    hide HeaderFor;
    var ok := WriteHeader(tar, f.entry.path, f.entry.size, f.entry.mode);
    if !ok {
      return Err(BuildIo);
    }
    if !Unchanged(f, sha256) {
      return Err(InputChanged);
    }
    tar.WriteAll(f.data);
    WritePadding(tar, f.entry.size);
    r := Ok(());
  }

  method WriteMetadata(tar: TarStream, manifest: bytes, signature: Option<bytes>) returns (ok: bool)
    requires tar.plain == []
    modifies tar
    ensures ok <==> PrintMetadata(manifest, signature).Some?
    ensures ok ==> tar.plain == PrintMetadata(manifest, signature).value
  {
    ok := WriteSmallEntry(tar, MANIFEST_NAME, manifest);
    if ok && signature.Some? {
      ok := WriteSmallEntry(tar, SIGNATURE_NAME, signature.value);
    }
  }

  method WriteFiles(tar: TarStream, files: seq<Staged>, sha256: bytes -> bytes) returns (r: Result<(), Error>)
    modifies tar
    ensures r.Ok? <==> PrintFiles(files).Some? && forall f <- files :: Unchanged(f, sha256)
    ensures r.Ok? ==> tar.plain == old(tar.plain) + PrintFiles(files).value
    ensures r.Err? ==> r.error in {BuildIo, InputChanged}
    ensures r == Err(InputChanged) ==> exists f <- files :: !Unchanged(f, sha256)
  {
    hide EntryBytes, Unchanged, Pieces;
    ghost var pieces := Pieces(files);
    ghost var before := tar.plain;
    for i := 0 to |files|
      invariant Written(tar.plain, before, pieces[..i])
      invariant forall k :: 0 <= k < i ==> Unchanged(files[k], sha256)
    {
      PieceAt(files, i);
      r := WriteNext(tar, files[i], i, pieces, before, sha256);
      if r.Err? {
        return;
      }
    }
    assert pieces[..|files|] == pieces;
    r := Ok(());
  }

  method WriteNext(tar: TarStream, f: Staged, i: nat, ghost pieces: seq<Option<bytes>>,
                   ghost before: bytes, sha256: bytes -> bytes)
    returns (r: Result<(), Error>)
    requires i < |pieces| && pieces[i] == FileBytes(f) && Written(tar.plain, before, pieces[..i])
    modifies tar
    ensures r.Ok? ==> Written(tar.plain, before, pieces[..i + 1]) && Unchanged(f, sha256)
    ensures r.Err? ==> Collect(pieces).None? || !Unchanged(f, sha256)
    ensures r.Err? ==> r.error in {BuildIo, InputChanged}
    ensures r == Err(InputChanged) ==> !Unchanged(f, sha256)
  {
    hide EntryBytes, Collect, Unchanged;
    CollectStep(pieces, i);
    r := WriteFile(tar, f, pieces[i], sha256);
  }

  predicate Written(after: bytes, before: bytes, pieces: seq<Option<bytes>>) {
    var all := Collect(pieces);
    all.Some? && after == before + all.value
  }

  /** The package is written in full or not at all, as far as the caller can
      tell: success means the budget held the compressed archive. */
  method WriteArchive(manifest: bytes, signature: Option<bytes>, files: seq<Staged>,
                      sha256: bytes -> bytes, gzip: bytes -> bytes)
    returns (r: Result<bytes, Error>)
    ensures r.Ok? <==> var plain := PrintArchive(manifest, signature, files);
                       && plain.Some? && |gzip(plain.value)| <= 1024 * 1024 * 1024
                       && forall f <- files ::
                            |f.data| == f.entry.size && (f.entry.sha256 != [] ==> f.entry.sha256 == sha256(f.data))
    ensures r.Ok? ==> r.value == gzip(PrintArchive(manifest, signature, files).value)
    ensures r.Err? ==> r.error in {BuildIo, InputChanged}
    ensures r == Err(InputChanged) ==>
              exists f <- files :: |f.data| != f.entry.size || (f.entry.sha256 != [] && f.entry.sha256 != sha256(f.data))
  {
    var tar := new TarStream();
    var ok := WriteMetadata(tar, manifest, signature);
    if !ok {
      return Err(BuildIo);
    }
    var written := WriteFiles(tar, files, sha256);
    if written.Err? {
      return Err(written.error);
    }
    tar.WriteAll(Repeat(0, 1024));
    var limited := new ArchiveWriter(MAX_ARCHIVE_BYTES);
    ok := Drain(limited, gzip(tar.plain));
    r := if ok then Ok(limited.output) else Err(BuildIo);
  }

  lemma CollectStep(pieces: seq<Option<bytes>>, i: nat)
    requires i < |pieces|
    ensures Collect(pieces[..i + 1]) == Append(Collect(pieces[..i]), pieces[i])
    ensures Collect(pieces[..i + 1]).None? ==> Collect(pieces).None?
  {
    assert pieces[..i + 1][..i] == pieces[..i];
    CollectPrefix(pieces, i + 1);
  }

  lemma {:induction false} CollectPrefix(pieces: seq<Option<bytes>>, i: nat)
    requires i <= |pieces|
    ensures Collect(pieces[..i]).None? ==> Collect(pieces).None?
    decreases |pieces|
  {
    if i < |pieces| {
      var init := pieces[..|pieces| - 1];
      assert init[..i] == pieces[..i];
      CollectPrefix(init, i);
    } else {
      assert pieces[..i] == pieces;
    }
  }
}
