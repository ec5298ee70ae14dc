/** Payload paths and the manifest inventory: the second half of
    src/artifact/types.rs and the alias check of src/install.rs. Lower-casing
    and file-name folding are parameters. */
module Inventory {
  import opened Prelude
  import opened Paths
  import opened Package

  const ROOTS: seq<bytes> := [
    Ascii("bin"), Ascii("engine"), Ascii("runtime"), Ascii("deploy"),
    Ascii("schemas"), Ascii("docs"), Ascii("licenses")]
  const FORBIDDEN: seq<bytes> := [
    Ascii(".git"), Ascii("node_modules"), Ascii("secret"), Ascii("secrets"), Ascii("key"),
    Ascii("keys"), Ascii("db"), Ascii("data"), Ascii("wal"), Ascii("credentials"),
    Ascii("passwords")]
  const SUFFIXES: seq<bytes> := [
    Ascii(".key"), Ascii(".pem"), Ascii(".p12"), Ascii(".pfx"), Ascii(".jks"), Ascii(".db"),
    Ascii(".wal"), Ascii(".env")]
  const CLI: bytes := Ascii("bin/bxdl")
  const JAR: bytes := Ascii("engine/nigo-node.jar")
  const JAVA: bytes := Ascii("runtime/bin/java")
  const REQUIRED: seq<bytes> := [
    CLI, JAR, JAVA, Ascii("licenses/THIRD_PARTY_NOTICES"), Ascii("licenses/SBOM.json")]

  predicate BadText(p: bytes) {
    p == [] || |p| > 255 || 0x5C in p || 0x3A in p || 0 in p
    || p[0] == SLASH || p[|p| - 1] == SLASH || HasControl(p)
  }

  predicate BadParts(parts: seq<bytes>) {
    |parts| < 2 || |parts[|parts| - 1]| > 100
    || exists part <- parts :: part == [] || part == Ascii(".") || part == Ascii("..")
  }

  predicate Misplaced(p: bytes, root: bytes) {
    root !in ROOTS || (root == Ascii("bin") && p != CLI) || (root == Ascii("engine") && p != JAR)
  }

  predicate Forbidden(p: bytes, parts: seq<bytes>, lower: bytes -> bytes) {
    (exists part <- parts :: lower(part) in FORBIDDEN)
    || exists suffix <- SUFFIXES :: HasSuffix(lower(p), suffix)
  }

  function ValidatePath(p: bytes, lower: bytes -> bytes): Result<(), Error> {
    var parts := Split(p);
    if BadText(p) || BadParts(parts) || Misplaced(p, parts[0]) then Err(PathInvalid)
    else if Forbidden(p, parts, lower) then Err(PathForbidden)
    else Ok(())
  }

  predicate ValidPath(p: bytes, lower: bytes -> bytes) {
    ValidatePath(p, lower).Ok?
  }

  /** What the archive format and the installer rely on: a valid path is a
      bounded relative name below one of the allowed roots. */
  lemma ValidPathShape(p: bytes, lower: bytes -> bytes)
    requires ValidPath(p, lower)
    ensures 0 < |p| <= 255 && 0 !in p && p[0] != SLASH && SLASH in p
    ensures Split(p)[0] in ROOTS && Split(p)[0] == p[..Find(p, SLASH)]
  {
  }

  predicate Label(s: bytes) {
    s != [] && |s| <= 128 && Trimmed(s) && !HasControl(s)
  }

  // ------------------------------------------------------------- manifest

  predicate IdentityOk(m: Manifest) {
    && m.schemaVersion == 1 && m.kind == Ascii("bxdl-package")
    && m.productName == Ascii("BXDL") && m.channel == Ascii("development")
    && Label(m.productVersion)
    && (IsHash(m.productRevision, 40) || m.productRevision == Ascii("development"))
  }

  predicate PlatformOk(p: Platform) {
    && ((p.os == Ascii("linux") && p.arch == Ascii("amd64") && p.libc == Ascii("glibc")
         && p.minGlibc == Ascii("2.34"))
        || (p.os == Ascii("darwin") && p.arch == Ascii("arm64") && p.libc == Ascii("none")
            && p.minGlibc == Ascii("none")))
    && p.javaMajor == 21 && p.backend == Ascii("rocksdb")
  }

  predicate SuppliersOk(m: Manifest) {
    && IsHash(m.engineRevision, 40) && IsHash(m.jarSha256, 64)
    && m.contractStatus == Ascii("proposed") && Label(m.contractRevision)
    && Label(m.runtimeVendor) && Label(m.runtimeVersion) && IsHash(m.javaSha256, 64)
  }

  predicate HeaderOk(m: Manifest) {
    IdentityOk(m) && PlatformOk(m.platform) && SuppliersOk(m)
  }

  predicate EntryOk(f: FileEntry, lower: bytes -> bytes) {
    && ValidPath(f.path, lower)
    && f.size <= MAX_FILE_BYTES
    && IsHash(f.sha256, 64)
    && (f.mode == MODE_PLAIN || f.mode == MODE_EXECUTABLE)
  }

  predicate DistinctPaths(files: seq<FileEntry>) {
    forall i, j :: 0 <= i < j < |files| ==> files[i].path != files[j].path
  }

  /** No file is also a directory that another file needs. */
  predicate NoConflict(files: seq<FileEntry>) {
    forall f <- files, g <- files :: f.path !in Ancestors(g.path)
  }

  ghost predicate Present(files: seq<FileEntry>, path: bytes) {
    exists f <- files :: f.path == path && f.size > 0
  }

  ghost predicate AllPresent(files: seq<FileEntry>) {
    forall k :: 0 <= k < |REQUIRED| ==> Present(files, REQUIRED[k])
  }

  ghost predicate LaunchersOk(files: seq<FileEntry>) {
    forall f <- files :: f.path == CLI || f.path == JAVA ==> f.mode == MODE_EXECUTABLE
  }

  ghost predicate IdentitiesMatch(m: Manifest) {
    forall f <- m.files ::
      (f.path == JAR ==> f.sha256 == m.jarSha256) && (f.path == JAVA ==> f.sha256 == m.javaSha256)
  }

  /** An acceptable inventory, stated without regard to the order of files. */
  ghost predicate InventoryOk(m: Manifest, lower: bytes -> bytes) {
    && 0 < |m.files| <= MAX_FILES
    && ListOk(m.files, EntryCheck(lower))
    && NoConflict(m.files)
    && AllPresent(m.files)
    && LaunchersOk(m.files)
    && IdentitiesMatch(m)
  }

  ghost predicate ManifestOk(m: Manifest, lower: bytes -> bytes) {
    HeaderOk(m) && InventoryOk(m, lower)
  }

  /** What the loop body finds wrong with one entry, the earlier ones being fine. */
  ghost function EntryFault(files: seq<FileEntry>, i: nat, lower: bytes -> bytes): Option<Error>
    requires i < |files|
  {
    var f := files[i];
    if ValidatePath(f.path, lower).Err? then Some(ValidatePath(f.path, lower).error)
    else if exists j :: 0 <= j < i && files[j].path == f.path then Some(InventoryDuplicate)
    else if f.size > MAX_FILE_BYTES || TotalSize(files[..i]) > MAX_TOTAL_BYTES - f.size then
      Some(LimitExceeded)
    else if !IsHash(f.sha256, 64) || (f.mode != MODE_PLAIN && f.mode != MODE_EXECUTABLE) then
      Some(ManifestInvalid)
    else None
  }

  ghost function FirstFault(files: seq<FileEntry>, n: nat, lower: bytes -> bytes): Option<Error>
    requires n <= |files|
  {
    if n == 0 then None
    else if FirstFault(files, n - 1, lower).Some? then FirstFault(files, n - 1, lower)
    else EntryFault(files, n - 1, lower)
  }

  /** The verdict of `validate_manifest`, error codes included. */
  ghost function Verdict(m: Manifest, complete: bool, lower: bytes -> bytes): Result<(), Error> {
    if !IdentityOk(m) then Err(ManifestInvalid)
    else if !PlatformOk(m.platform) then Err(PlatformUnsupported)
    else if !SuppliersOk(m) then Err(ManifestInvalid)
    else if !complete && m.files == [] then Ok(())
    else if m.files == [] || |m.files| > MAX_FILES then Err(LimitExceeded)
    else match FirstFault(m.files, |m.files|, lower)
      case Some(e) => Err(e)
      case None => if !NoConflict(m.files) then Err(InventoryConflict) else RequiredVerdict(m)
  }

  ghost function RequiredVerdict(m: Manifest): Result<(), Error> {
    if !AllPresent(m.files) then Err(RequiredFileMissing)
    else if !LaunchersOk(m.files) then Err(ManifestInvalid)
    else if !IdentitiesMatch(m) then Err(IdentityMismatch)
    else Ok(())
  }

  /** The pass over the entries faults exactly when some quantified rule fails. */
  lemma {:induction false} FirstFaultExact(files: seq<FileEntry>, n: nat, lower: bytes -> bytes)
    requires n <= |files|
    ensures FirstFault(files, n, lower).None? <==> ListOk(files[..n], EntryCheck(lower))
  {
    if n > 0 {
      FirstFaultExact(files, n - 1, lower);
      if ListOk(files[..n], EntryCheck(lower)) {
        ListPrefix(files[..n], n - 1, EntryCheck(lower));
        assert files[..n][..n - 1] == files[..n - 1];
      }
      if FirstFault(files, n - 1, lower).None? {
        ListStep(files, n - 1, EntryCheck(lower));
        FaultFree(files, n - 1, lower);
      }
    }
  }

  lemma FaultFree(files: seq<FileEntry>, i: nat, lower: bytes -> bytes)
    requires i < |files|
    ensures EntryFault(files, i, lower).None? <==>
              EntryCheck(lower)(files[i]) && (forall j :: 0 <= j < i ==> files[j].path != files[i].path)
              && TotalSize(files[..i]) + files[i].size <= MAX_TOTAL_BYTES
  {
  }

  /** `validate_manifest` accepts exactly the manifests whose fields and
      inventory satisfy the order-free rules. */
  lemma VerdictExact(m: Manifest, lower: bytes -> bytes)
    ensures Verdict(m, true, lower).Ok? <==> ManifestOk(m, lower)
  {
    FirstFaultExact(m.files, |m.files|, lower);
    assert m.files[..|m.files|] == m.files;
  }

  /** The table the first loop builds: one slot for each path. */
  ghost predicate Indexes(seen: map<bytes, FileEntry>, files: seq<FileEntry>) {
    && (forall f <- files :: f.path in seen && seen[f.path] == f)
    && (forall p <- seen :: seen[p].path == p && seen[p] in files)
  }

  method ValidateManifest(m: Manifest, complete: bool, lower: bytes -> bytes)
    returns (r: Result<(), Error>)
    ensures r == Verdict(m, complete, lower)
  {
    if !IdentityOk(m) {
      return Err(ManifestInvalid);
    }
    if !PlatformOk(m.platform) {
      return Err(PlatformUnsupported);
    }
    if !SuppliersOk(m) {
      return Err(ManifestInvalid);
    }
    if !complete && m.files == [] {
      return Ok(());
    }
    if m.files == [] || |m.files| > MAX_FILES {
      return Err(LimitExceeded);
    }
    var listed, seen := ListFiles(m.files, lower);
    if listed.Err? {
      return listed;
    }
    var clash := ParentConflict(seen, m.files);
    if clash {
      return Err(InventoryConflict);
    }
    r := RequiredFiles(m, seen);
  }

  /** The entry check with its case mapping fixed. */
  function EntryCheck(lower: bytes -> bytes): FileEntry -> bool {
    (f: FileEntry) => EntryOk(f, lower)
  }

  ghost predicate ListOk(files: seq<FileEntry>, ok: FileEntry -> bool) {
    && (forall i :: 0 <= i < |files| ==> ok(files[i]))
    && DistinctPaths(files)
    && TotalSize(files) <= MAX_TOTAL_BYTES
  }

  /** How acceptability of one more entry depends on the ones before it. */
  lemma ListStep(files: seq<FileEntry>, i: nat, ok: FileEntry -> bool)
    requires i < |files| && ListOk(files[..i], ok)
    ensures ListOk(files[..i + 1], ok) <==>
              ok(files[i]) && (forall j :: 0 <= j < i ==> files[j].path != files[i].path)
              && TotalSize(files[..i]) + files[i].size <= MAX_TOTAL_BYTES
  {
    TotalSizeStep(files, i);
    var t := files[..i + 1];
    assert t[i] == files[i];
    assert forall k :: 0 <= k < i ==> t[k] == files[k] && files[..i][k] == files[k];
  }

  lemma ListPrefix(files: seq<FileEntry>, i: nat, ok: FileEntry -> bool)
    requires i <= |files| && ListOk(files, ok)
    ensures ListOk(files[..i], ok)
  {
    TotalSizeGrows(files, i);
  }

  lemma IndexStep(files: seq<FileEntry>, i: nat, seen: map<bytes, FileEntry>)
    requires i < |files| && Indexes(seen, files[..i]) && files[i].path !in seen
    ensures Indexes(seen[files[i].path := files[i]], files[..i + 1])
  {
    assert files[..i + 1] == files[..i] + [files[i]];
  }

  lemma {:induction false} FaultStays(files: seq<FileEntry>, i: nat, n: nat, lower: bytes -> bytes)
    requires i <= n <= |files| && FirstFault(files, i, lower).Some?
    ensures FirstFault(files, n, lower) == FirstFault(files, i, lower)
  {
    if i < n {
      FaultStays(files, i, n - 1, lower);
    }
  }

  lemma SeenBefore(files: seq<FileEntry>, i: nat, seen: map<bytes, FileEntry>)
    requires i < |files| && Indexes(seen, files[..i])
    ensures files[i].path in seen <==> exists j :: 0 <= j < i && files[j].path == files[i].path
  {
    if files[i].path in seen {
      var j :| 0 <= j < i && files[..i][j] == seen[files[i].path];
      assert files[j].path == files[i].path;
    } else {
      assert forall j :: 0 <= j < i ==> files[..i][j] in files[..i];
    }
  }

  /** The first loop of `validate_manifest`: one pass that fills the table. */
  method ListFiles(files: seq<FileEntry>, lower: bytes -> bytes)
    returns (r: Result<(), Error>, seen: map<bytes, FileEntry>)
    ensures r == match FirstFault(files, |files|, lower) case Some(e) => Err(e) case None => Ok(())
    ensures r.Ok? ==> Indexes(seen, files)
  {
    seen := map[];
    var total := 0;
    for i := 0 to |files|
      invariant FirstFault(files, i, lower).None?
      invariant Indexes(seen, files[..i])
      invariant total == TotalSize(files[..i])
    {
      var f := files[i];
      SeenBefore(files, i, seen);
      if EntryFault(files, i, lower).Some? {
        FaultStays(files, i + 1, |files|, lower);
      }
      var valid := ValidatePath(f.path, lower);
      if valid.Err? {
        return valid, seen;
      }
      if f.path in seen {
        return Err(InventoryDuplicate), seen;
      }
      if f.size > MAX_FILE_BYTES || total > MAX_TOTAL_BYTES - f.size {
        return Err(LimitExceeded), seen;
      }
      if !IsHash(f.sha256, 64) || (f.mode != MODE_PLAIN && f.mode != MODE_EXECUTABLE) {
        return Err(ManifestInvalid), seen;
      }
      IndexStep(files, i, seen);
      TotalSizeStep(files, i);
      seen := seen[f.path := f];
      total := total + f.size;
    }
    assert files[..|files|] == files;
    r := Ok(());
  }

  /** For each listed name, look up every prefix that ends before a slash. */
  method ParentConflict(seen: map<bytes, FileEntry>, ghost files: seq<FileEntry>)
    returns (clash: bool)
    requires Indexes(seen, files)
    ensures clash <==> !NoConflict(files)
  {
    var names := seen.Keys;
    while names != {}
      invariant names <= seen.Keys
      invariant forall p <- seen.Keys - names :: Ancestors(p) !! seen.Keys
    {
      var name :| name in names;
      var parent := name;
      var k := LastSlash(parent);
      while k >= 0
        invariant k == LastSlash(parent)
        invariant Ancestors(parent) <= Ancestors(name)
        invariant Ancestors(name) - Ancestors(parent) !! seen.Keys
        decreases |parent|
      {
        var prefix := parent[..k];
        LastSlashAncestors(parent);
        if prefix in seen {
          assert seen[name].path == name && seen[prefix].path == prefix;
          return true;
        }
        parent := prefix;
        k := LastSlash(parent);
      }
      NoSlashNoAncestors(parent);
      names := names - {name};
    }
    return false;
  }

  lemma LastSlashAncestors(p: bytes)
    requires LastSlash(p) >= 0
    ensures Ancestors(p) == Ancestors(p[..LastSlash(p)]) + {p[..LastSlash(p)]}
  {
    var k := LastSlash(p);
    var q := p[..k];
    forall a | a in Ancestors(p)
      ensures a in Ancestors(q) + {q}
    {
      var i :| 0 <= i < |p| && p[i] == SLASH && p[..i] == a;
      if i < k {
        assert q[i] == SLASH && q[..i] == a;
      }
    }
    AncestorsNest(p, q);
  }

  lemma NoSlashNoAncestors(p: bytes)
    requires LastSlash(p) == -1
    ensures Ancestors(p) == {}
  {
  }

  method RequiredFiles(m: Manifest, seen: map<bytes, FileEntry>) returns (r: Result<(), Error>)
    requires Indexes(seen, m.files)
    ensures r == RequiredVerdict(m)
  {
    for i := 0 to |REQUIRED|
      invariant forall k :: 0 <= k < i ==> REQUIRED[k] in seen && seen[REQUIRED[k]].size > 0
    {
      if REQUIRED[i] !in seen || seen[REQUIRED[i]].size == 0 {
        assert !Present(m.files, REQUIRED[i]);
        return Err(RequiredFileMissing);
      }
    }
    assert CLI == REQUIRED[0] && JAR == REQUIRED[1] && JAVA == REQUIRED[2];
    assert seen[CLI] in m.files && seen[JAR] in m.files && seen[JAVA] in m.files;
    if seen[CLI].mode != MODE_EXECUTABLE || seen[JAVA].mode != MODE_EXECUTABLE {
      return Err(ManifestInvalid);
    }
    if seen[JAR].sha256 != m.jarSha256 || seen[JAVA].sha256 != m.javaSha256 {
      return Err(IdentityMismatch);
    }
    return Ok(());
  }
}
