/** The installed trees that re-verification accepts, path by path. */
module InstalledRules {
  import opened Prelude
  import opened Paths
  import opened Package
  import opened Inventory
  import opened Aliases
  import opened TextRules
  import opened ManifestRules
  import opened Printer
  import opened Verifier
  import opened Soundness
  import opened Installer
  import opened Install
  import opened InstalledTree
  import opened Reverify

  // src/install/installed.rs, `verify_installed`, by literal names, modes and sizes.

  /** A single regular file of this mode, and what it must hold. */
  ghost predicate FileAt(flat: map<bytes, Item>, p: bytes, mode: nat, ok: bytes -> bool) {
    p in flat && flat[p].Regular? && flat[p].links == 1 && flat[p].mode == mode && ok(flat[p].data)
  }

  ghost predicate FolderAt(flat: map<bytes, Item>, p: bytes) {
    p in flat && flat[p].Directory? && flat[p].mode == 448
  }

  ghost predicate ReportTold(env: Env, folded: bytes -> bytes, expected: Report) {
    && Admissible(expected.manifest, env.lower)
    && expected.manifest.platform.os == Ascii("darwin") && expected.manifest.platform.arch == Ascii("arm64")
    && AliasFree(expected.manifest.files, folded)
    && expected.filesVerified == |expected.manifest.files| && expected.bytesVerified == TotalSize(expected.manifest.files)
    && HexText(expected.archiveSha256, 64) && HexText(expected.manifestSha256, 64)
  }

  ghost predicate RecordsTold(env: Env, codec: Codec, destination: bytes, expected: Report, flat: map<bytes, Item>) {
    && FileAt(flat, Ascii("manifest.json"), 420, (data: bytes) =>
         |data| <= 1_048_576 && env.sha256(data) == expected.manifestSha256 && env.decode(data) == Some(expected.manifest))
    && FileAt(flat, Ascii(".bxdl-install.json"), 384, (data: bytes) =>
         |data| <= 8_388_608
         && codec.read(data) == Some(Receipt(1, Ascii("BXDL_INSTALL_RECEIPT"), Ascii("INSTALLED"), destination, expected,
                                             Ascii("NOT_CHECKED"), Ascii("NOT_PERFORMED"))))
    && (expected.isSigned ==>
          FileAt(flat, Ascii("manifest.sig"), 420, (data: bytes) => |data| <= 128 && env.signatureOf(data).Some?))
  }

  ghost predicate PayloadTold(env: Env, m: Manifest, flat: map<bytes, Item>) {
    && (forall f <- m.files ::
          FileAt(flat, f.path, f.mode, (data: bytes) => |data| == f.size && env.sha256(data) == f.sha256))
    && (forall f <- m.files, i :: 0 <= i < |f.path| && f.path[i] == 0x2F ==> FolderAt(flat, f.path[..i]))
  }

  /** A path that belongs to the installation. */
  ghost predicate Belongs(p: bytes, m: Manifest, isSigned: bool) {
    || p == Ascii("manifest.json") || p == Ascii(".bxdl-install.json") || (isSigned && p == Ascii("manifest.sig"))
    || exists f <- m.files :: f.path == p || ManifestRules.Below(f.path, p)
  }

  ghost predicate TreeTold(env: Env, folded: bytes -> bytes, codec: Codec, destination: bytes, expected: Report,
                           rootMode: nat, flat: map<bytes, Item>) {
    && ReportTold(env, folded, expected) && rootMode == 448
    && RecordsTold(env, codec, destination, expected, flat) && PayloadTold(env, expected.manifest, flat)
    && forall p <- flat :: Belongs(p, expected.manifest, expected.isSigned)
  }

  lemma ReportIs(env: Env, folded: bytes -> bytes, expected: Report)
    ensures Plausible(env, folded, expected) <==> ReportTold(env, folded, expected)
  {
    ManifestExact(expected.manifest, env.lower);
    HashIs(expected.archiveSha256, 64);
    HashIs(expected.manifestSha256, 64);
    hide ManifestOk, Admissible, IsHash, HexText, AliasFree, TotalSize, Ascii;
  }

  lemma RecordsAre(env: Env, codec: Codec, destination: bytes, expected: Report, flat: map<bytes, Item>)
    ensures TextsOk(env, codec, destination, expected, flat) <==> RecordsTold(env, codec, destination, expected, flat)
  {
    hide Ascii;
  }

  // ---------------------------------------------------------------- the tree

  lemma AncestorsAre(m: Manifest, p: bytes)
    ensures p in Directories(m.files) <==> exists f <- m.files :: ManifestRules.Below(f.path, p)
  {
    forall f <- m.files ensures p in Ancestors(f.path) <==> ManifestRules.Below(f.path, p) {
      AncestorIsAbove(f.path, p);
    }
    hide Ancestors, ManifestRules.Below;
  }

  lemma FoldersAre(m: Manifest, flat: map<bytes, Item>)
    ensures (forall a <- Directories(m.files) :: FolderAt(flat, a)) <==>
            (forall f <- m.files, i :: 0 <= i < |f.path| && f.path[i] == 0x2F ==> FolderAt(flat, f.path[..i]))
  {
    hide FolderAt;
    if forall a <- Directories(m.files) :: FolderAt(flat, a) {
      forall f <- m.files, i | 0 <= i < |f.path| && f.path[i] == 0x2F ensures FolderAt(flat, f.path[..i]) {
        assert f.path[..i] in Ancestors(f.path);
      }
    }
  }

  ghost predicate Recorded(env: Env, flat: map<bytes, Item>, f: FileEntry) {
    FileAt(flat, f.path, f.mode, (data: bytes) => |data| == f.size && env.sha256(data) == f.sha256)
  }

  /** Every expected payload path is there as recorded. */
  lemma PayloadIs(env: Env, m: Manifest, flat: map<bytes, Item>, inventory: map<bytes, Wanted>)
    requires Inventoried(inventory, m.files) && DistinctPaths(m.files) && NoConflict(m.files)
    ensures (forall p <- inventory :: p in flat && Matches(env.sha256, flat[p], inventory[p], true)) <==>
            PayloadTold(env, m, flat)
  {
    FoldersAre(m, flat);
    hide NoConflict, Ancestors, Directories, DistinctPaths;
    if forall p <- inventory :: p in flat && Matches(env.sha256, flat[p], inventory[p], true) {
      forall f <- m.files ensures Recorded(env, flat, f) {
      }
      forall a <- Directories(m.files) ensures FolderAt(flat, a) {
      }
    }
    if PayloadTold(env, m, flat) {
      forall p <- inventory ensures p in flat && Matches(env.sha256, flat[p], inventory[p], true) {
        if p in Leaves(m.files) {
          var f :| f in m.files && f.path == p;
        } else {
          assert FolderAt(flat, p);
        }
      }
    }
  }

  lemma NamesApart(m: Manifest, lower: bytes -> bytes, inventory: map<bytes, Wanted>, p: bytes)
    requires ManifestOk(m, lower) && Inventoried(inventory, m.files) && p in inventory
    ensures p !in RESERVED
  {
    IndexClear(m, lower);
    IndexKeys(m.files);
    hide ManifestOk, RESERVED, Ancestors, Index;
    if p in Leaves(m.files) {
      var f :| f in m.files && f.path == p;
      assert Clear(p);
    } else {
      var f :| f in m.files && p in Ancestors(f.path);
      assert Clear(f.path);
    }
  }

  ghost function TextsOf(env: Env, expected: Report, flat: map<bytes, Item>): map<bytes, Wanted>
    requires Readable(flat, MANIFEST_NAME, MODE_PLAIN, MAX_MANIFEST_BYTES)
    requires Readable(flat, RECEIPT, MODE_PRIVATE, MAX_RECEIPT_BYTES)
    requires expected.isSigned ==> Readable(flat, SIGNATURE_NAME, MODE_PLAIN, 128)
  {
    Texts(flat[MANIFEST_NAME].data, flat[RECEIPT].data,
          if expected.isSigned then Some(flat[SIGNATURE_NAME].data) else None, env.sha256)
  }

  lemma TextsThere(env: Env, codec: Codec, destination: bytes, expected: Report, flat: map<bytes, Item>)
    requires TextsOk(env, codec, destination, expected, flat)
    ensures var texts := TextsOf(env, expected, flat);
            && (forall p <- texts :: p in flat && Matches(env.sha256, flat[p], texts[p], true))
            && texts.Keys == {MANIFEST_NAME, RECEIPT} + (if expected.isSigned then {SIGNATURE_NAME} else {})
            && texts.Keys <= RESERVED
  {
    InReserved();
    hide RESERVED, MANIFEST_NAME, RECEIPT, SIGNATURE_NAME;
  }

  lemma BelongsIs(m: Manifest, isSigned: bool, inventory: map<bytes, Wanted>, p: bytes)
    requires Inventoried(inventory, m.files)
    ensures Belongs(p, m, isSigned) <==>
              p in inventory || p in {MANIFEST_NAME, RECEIPT} + (if isSigned then {SIGNATURE_NAME} else {})
  {
    AncestorsAre(m, p);
    hide Directories, Ascii, ManifestRules.Below;
  }

  lemma ExactParts(sha256: bytes -> bytes, flat: map<bytes, Item>, a: map<bytes, Wanted>, b: map<bytes, Wanted>)
    requires a.Keys !! b.Keys && forall p <- b :: p in flat && Matches(sha256, flat[p], b[p], true)
    ensures Exact(sha256, flat, a + b) <==>
              (forall p <- a :: p in flat && Matches(sha256, flat[p], a[p], true))
              && forall p <- flat :: p in a || p in b
  {
    hide Matches;
    var all := a + b;
    assert all.Keys == a.Keys + b.Keys;
    assert forall p <- b :: all[p] == b[p];
    assert forall p <- a :: all[p] == a[p];
  }

  lemma TreeSplits(env: Env, codec: Codec, destination: bytes, expected: Report, flat: map<bytes, Item>,
                   inventory: map<bytes, Wanted>)
    requires ManifestOk(expected.manifest, env.lower) && TextsOk(env, codec, destination, expected, flat)
    requires Inventoried(inventory, expected.manifest.files)
    ensures Exact(env.sha256, flat, inventory + TextsOf(env, expected, flat)) <==>
            PayloadTold(env, expected.manifest, flat)
            && forall p <- flat :: Belongs(p, expected.manifest, expected.isSigned)
  {
    var texts := TextsOf(env, expected, flat);
    TextsThere(env, codec, destination, expected, flat);
    Orderly(expected.manifest, env.lower);
    PayloadIs(env, expected.manifest, flat, inventory);
    forall p | p in inventory ensures p !in texts {
      NamesApart(expected.manifest, env.lower, inventory, p);
    }
    forall p ensures Belongs(p, expected.manifest, expected.isSigned) <==> p in inventory || p in texts {
      BelongsIs(expected.manifest, expected.isSigned, inventory, p);
    }
    hide *;
    ExactParts(env.sha256, flat, inventory, texts);
  }

  /** Re-verification accepts a tree exactly when it is the told one. */
  lemma InstalledExact(env: Env, folded: bytes -> bytes, codec: Codec, destination: bytes, expected: Report,
                       rootMode: nat, flat: map<bytes, Item>)
    ensures TreeAccepted(env, folded, codec, destination, expected, rootMode, flat) <==>
            TreeTold(env, folded, codec, destination, expected, rootMode, flat)
  {
    ReportIs(env, folded, expected);
    RecordsAre(env, codec, destination, expected, flat);
    if Plausible(env, folded, expected) && TextsOk(env, codec, destination, expected, flat) {
      Orderly(expected.manifest, env.lower);
      hide ReportTold, RecordsTold, PayloadTold, Belongs, Inventoried, Exact, Matches, DistinctPaths, NoConflict, Ascii;
      var inventory := InventoryExists(expected.manifest.files);
      forall i: map<bytes, Wanted> | Inventoried(i, expected.manifest.files) ensures i == inventory {
        InventoryUnique(i, inventory, expected.manifest.files);
      }
      TreeSplits(env, codec, destination, expected, flat, inventory);
    }
    hide TextsOk, Plausible, ReportTold, RecordsTold, PayloadTold, Belongs;
  }
}
