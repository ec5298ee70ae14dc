/** The signed package manifest, its limits and the errors that the package tools
    report (the first half of src/artifact/types.rs). Sizes are unbounded here: no
    sum of file sizes within the limits comes near the width of the machine integers
    that hold it. */
module Package {
  import opened Prelude

  const MAX_ARCHIVE_BYTES: nat := 0x4000_0000
  const MAX_TOTAL_BYTES: nat := 0x1_0000_0000
  const MAX_FILE_BYTES: nat := 0x2000_0000
  const MAX_FILES: nat := 10_000
  const MAX_MANIFEST_BYTES: nat := 0x10_0000

  const MODE_PLAIN: nat := 0x1A4 // 0644
  const MODE_EXECUTABLE: nat := 0x1ED // 0755

  datatype Error =
    | ArchiveInvalid | EntryTypeForbidden | EntryInvalid | TrailingData
    | ManifestInvalid | JsonInvalid | PlatformUnsupported | LimitExceeded
    | PathInvalid | PathForbidden
    | InventoryDuplicate | InventoryConflict | InventoryMismatch
    | RequiredFileMissing | IdentityMismatch | HashMismatch
    | SignatureInvalid | SignatureRequired | TrustKeyRequired
    | BuildIo | InputChanged | PathCollision | SinkRefused | CommitUncertain

  datatype FileEntry = FileEntry(path: bytes, size: nat, sha256: bytes, mode: nat)

  datatype Platform = Platform(
    os: bytes, arch: bytes, libc: bytes, minGlibc: bytes, javaMajor: nat, backend: bytes)

  datatype Manifest = Manifest(
    schemaVersion: nat,
    kind: bytes,
    productName: bytes,
    productVersion: bytes,
    productRevision: bytes,
    channel: bytes,
    platform: Platform,
    engineRevision: bytes,
    jarSha256: bytes,
    contractStatus: bytes,
    contractRevision: bytes,
    runtimeVendor: bytes,
    runtimeVersion: bytes,
    javaSha256: bytes,
    files: seq<FileEntry>)

  function Sizes(files: seq<FileEntry>): seq<nat> {
    seq(|files|, i requires 0 <= i < |files| => files[i].size)
  }

  function TotalSize(files: seq<FileEntry>): nat {
    Sum(Sizes(files))
  }

  lemma TotalSizeStep(files: seq<FileEntry>, i: nat)
    requires i < |files|
    ensures TotalSize(files[..i + 1]) == TotalSize(files[..i]) + files[i].size
  {
    var s := Sizes(files[..i + 1]);
    assert s[..i] == Sizes(files[..i]);
  }

  lemma {:induction false} TotalSizeGrows(files: seq<FileEntry>, i: nat)
    requires i <= |files|
    ensures TotalSize(files[..i]) <= TotalSize(files)
    decreases |files| - i
  {
    if i == |files| {
      assert files[..i] == files;
    } else {
      TotalSizeStep(files, i);
      TotalSizeGrows(files, i + 1);
    }
  }
}
