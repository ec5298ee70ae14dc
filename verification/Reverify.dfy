/** `verify_installed` (src/install/installed.rs): the checks of report, manifest,
    receipt and signature around the walk, the inventory they build, and the proof
    that together they accept a tree exactly when it is the reported package and
    nothing else, so in particular the tree that a successful installation leaves. */
module Reverify {
  import opened Prelude
  import opened Paths
  import opened Package
  import opened Inventory
  import opened Aliases
  import opened Printer
  import opened Verifier
  import opened Soundness
  import opened Installer
  import opened Install
  import opened InstalledTree

  const MAX_RECEIPT_BYTES: nat := 8 * MAX_MANIFEST_BYTES

  datatype Receipt = Receipt(
    schemaVersion: nat, kind: bytes, outcome: bytes, destination: bytes, report: Report,
    engineValidation: bytes, lifecycle: bytes)

  /** The receipt that an installation at `destination` writes. */
  function ReceiptFor(destination: bytes, report: Report): Receipt {
    Receipt(1, Ascii("BXDL_INSTALL_RECEIPT"), Ascii("INSTALLED"), destination, report,
            Ascii("NOT_CHECKED"), Ascii("NOT_PERFORMED"))
  }

  // ------------------------------------------------------- the expected tree

  /** Each listed file, and a directory for every ancestor. */
  ghost predicate Inventoried(inventory: map<bytes, Wanted>, files: seq<FileEntry>) {
    && inventory.Keys == Leaves(files) + Directories(files)
    && (forall f <- files :: f.path in inventory && inventory[f.path] == WantFile(f.size, f.mode, f.sha256))
    && (forall a <- Directories(files) :: a in inventory && inventory[a] == WantDirectory)
  }

  lemma PrefixApart(files: seq<FileEntry>, i: nat)
    requires NoConflict(files) && DistinctPaths(files) && i < |files|
    ensures files[i].path !in Directories(files[..i]) && files[i].path !in Leaves(files[..i])
    ensures Ancestors(files[i].path) !! Leaves(files[..i + 1])
    ensures files[i].path !in Ancestors(files[i].path)
  {
    forall f | f in files[..i + 1] ensures f in files {
      var j :| 0 <= j < i + 1 && files[j] == f;
    }
    assert files[..i] <= files[..i + 1];
    forall f | f in files[..i] ensures files[i].path !in Ancestors(f.path) && f.path != files[i].path {
      var j :| 0 <= j < i && files[j] == f;
    }
  }

  lemma InventoryStep(inventory: map<bytes, Wanted>, files: seq<FileEntry>, i: nat, next: map<bytes, Wanted>)
    requires NoConflict(files) && DistinctPaths(files) && i < |files|
    requires Inventoried(inventory, files[..i])
    requires next.Keys == inventory.Keys + {files[i].path} + Ancestors(files[i].path)
    requires next[files[i].path] == WantFile(files[i].size, files[i].mode, files[i].sha256)
    requires forall a <- Ancestors(files[i].path) :: next[a] == WantDirectory
    requires forall p <- inventory :: p !in Ancestors(files[i].path) ==> next[p] == inventory[p]
    ensures Inventoried(next, files[..i + 1])
  {
    PrefixApart(files, i);
    var t := files[..i + 1];
    assert t == files[..i] + [files[i]];
    DirectoriesPlus(files, i);
    hide *;
    InventoriedParts(inventory, files[..i]);
    forall f | f in t ensures f.path in next && next[f.path] == WantFile(f.size, f.mode, f.sha256) {
      LeafIn(t, f);
    }
    InventoriedWhole(next, t);
  }

  lemma LeafIn(files: seq<FileEntry>, f: FileEntry)
    requires f in files
    ensures f.path in Leaves(files)
  {
  }

  lemma InventoriedParts(inventory: map<bytes, Wanted>, files: seq<FileEntry>)
    requires Inventoried(inventory, files)
    ensures inventory.Keys == Leaves(files) + Directories(files)
    ensures forall f <- files :: f.path in inventory && inventory[f.path] == WantFile(f.size, f.mode, f.sha256)
    ensures forall a <- Directories(files) :: a in inventory && inventory[a] == WantDirectory
  {
  }

  lemma InventoriedWhole(inventory: map<bytes, Wanted>, files: seq<FileEntry>)
    requires inventory.Keys == Leaves(files) + Directories(files)
    requires forall f <- files :: f.path in inventory && inventory[f.path] == WantFile(f.size, f.mode, f.sha256)
    requires forall a <- Directories(files) :: a in inventory && inventory[a] == WantDirectory
    ensures Inventoried(inventory, files)
  {
  }

  lemma DirectoriesPlus(files: seq<FileEntry>, i: nat)
    requires i < |files|
    ensures Directories(files[..i + 1]) == Directories(files[..i]) + Ancestors(files[i].path)
    ensures Leaves(files[..i + 1]) == Leaves(files[..i]) + {files[i].path}
  {
    assert files[..i + 1] == files[..i] + [files[i]];
  }

  /** The loop that builds the expected inventory: each file, then its parents. */
  method BuildInventory(files: seq<FileEntry>) returns (inventory: map<bytes, Wanted>)
    requires DistinctPaths(files) && NoConflict(files)
    ensures Inventoried(inventory, files)
  {
    inventory := map[];
    for i := 0 to |files|
      invariant Inventoried(inventory, files[..i])
    {
      var f := files[i];
      PrefixApart(files, i);
      var next := WithParents(inventory[f.path := WantFile(f.size, f.mode, f.sha256)], f.path);
      InventoryStep(inventory, files, i, next);
      inventory := next;
    }
    assert files[..|files|] == files;
  }

  method WithParents(inventory: map<bytes, Wanted>, path: bytes) returns (next: map<bytes, Wanted>)
    ensures next.Keys == inventory.Keys + Ancestors(path)
    ensures forall p <- next :: next[p] == if p in Ancestors(path) then WantDirectory else inventory[p]
  {
    next := inventory;
    var parent := path;
    while LastSlash(parent) >= 0
      invariant Ancestors(parent) <= Ancestors(path)
      invariant next.Keys == inventory.Keys + (Ancestors(path) - Ancestors(parent))
      invariant forall p <- next :: next[p] == if p in Ancestors(path) - Ancestors(parent) then WantDirectory
                                               else inventory[p]
      decreases |parent|
    {
      LastSlashAncestors(parent);
      var shorter := parent[..LastSlash(parent)];
      NotOwnAncestor(shorter);
      next := next[shorter := WantDirectory];
      parent := shorter;
    }
    NoSlashNoAncestors(parent);
  }

  lemma NotOwnAncestor(p: bytes)
    ensures p !in Ancestors(p)
  {
  }

  // ------------------------------------------------------------ reading metadata

  ghost predicate Readable(flat: map<bytes, Item>, name: bytes, mode: nat, maximum: nat) {
    && name in flat && flat[name].Regular? && flat[name].links == 1 && flat[name].mode == mode
    && |flat[name].data| <= maximum
  }

  lemma {:induction false} TopLevel(entries: seq<Entry>, name: bytes)
    requires WellListed(entries) && NameOk(name)
    ensures name in Flat([], entries) <==> exists i :: 0 <= i < |entries| && entries[i].name == name
    ensures forall i :: 0 <= i < |entries| && entries[i].name == name ==>
              name in Flat([], entries) && Flat([], entries)[name] == entries[i].item
    decreases |entries|
  {
    if entries != [] {
      var init, last := entries[..|entries| - 1], entries[|entries| - 1];
      WellListedInit(entries);
      TopLevel(init, name);
      OnlyOwnName(last, name);
      if last.name == name {
        assert entries[|entries| - 1].name == name;
      } else if name in Flat([], init) {
        var i :| 0 <= i < |init| && init[i].name == name;
        assert entries[i].name == name;
      }
    }
  }

  lemma OnlyOwnName(e: Entry, name: bytes)
    requires NameOk(e.name) && NameOk(name) && (e.item.Directory? ==> WellListed(e.item.entries))
    ensures name in Below([], e) <==> name == e.name
    ensures Below([], e)[e.name] == e.item
  {
    if name in Below([], e) {
      BelowUnder([], e, name);
      UnderComponent([], e.name, name);
      FindIs(name, SLASH, |name|);
      assert name[0..][..|name|] == name;
    }
  }

  /** `read_small`, from the root of the tree. */
  method ReadFile(entries: seq<Entry>, name: bytes, mode: nat, maximum: nat) returns (r: Option<bytes>)
    requires WellListed(entries) && NameOk(name)
    ensures r.Some? <==> Readable(Flat([], entries), name, mode, maximum)
    ensures r.Some? ==> r.value == Flat([], entries)[name].data
  {
    TopLevel(entries, name);
    for i := 0 to |entries|
      invariant forall j :: 0 <= j < i ==> entries[j].name != name
    {
      if entries[i].name == name {
        var item := entries[i].item;
        if item.Regular? && item.links == 1 && item.mode == mode && |item.data| <= maximum {
          return Some(item.data);
        }
        return None;
      }
    }
    r := None;
  }

  // ------------------------------------------------------------ the acceptance

  /** How receipts are written and read. */
  datatype Codec = Codec(write: Receipt -> bytes, read: bytes -> Option<Receipt>)

  /** A report that some successful verification for this host may have returned. */
  ghost predicate Plausible(env: Env, folded: bytes -> bytes, expected: Report) {
    && ManifestOk(expected.manifest, env.lower) && Installable(expected.manifest, folded)
    && expected.filesVerified == |expected.manifest.files|
    && expected.bytesVerified == TotalSize(expected.manifest.files)
    && IsHash(expected.archiveSha256, 64) && IsHash(expected.manifestSha256, 64)
  }

  function Texts(raw: bytes, receipt: bytes, signature: Option<bytes>, sha256: bytes -> bytes): map<bytes, Wanted> {
    var two := map[MANIFEST_NAME := WantFile(|raw|, MODE_PLAIN, sha256(raw)),
                   RECEIPT := WantFile(|receipt|, MODE_PRIVATE, sha256(receipt))];
    if signature.None? then two
    else two[SIGNATURE_NAME := WantFile(|signature.value|, MODE_PLAIN, sha256(signature.value))]
  }

  ghost predicate TextsOk(env: Env, codec: Codec, destination: bytes, expected: Report, flat: map<bytes, Item>) {
    && Readable(flat, MANIFEST_NAME, MODE_PLAIN, MAX_MANIFEST_BYTES)
    && Readable(flat, RECEIPT, MODE_PRIVATE, MAX_RECEIPT_BYTES)
    && env.sha256(flat[MANIFEST_NAME].data) == expected.manifestSha256
    && env.decode(flat[MANIFEST_NAME].data) == Some(expected.manifest)
    && codec.read(flat[RECEIPT].data) == Some(ReceiptFor(destination, expected))
    && (expected.isSigned ==>
          Readable(flat, SIGNATURE_NAME, MODE_PLAIN, 128) && env.signatureOf(flat[SIGNATURE_NAME].data).Some?)
  }

  /** The tree is the inventory plus exactly the texts that belong to it. */
  ghost predicate TreeOk(env: Env, expected: Report, flat: map<bytes, Item>)
    requires Readable(flat, MANIFEST_NAME, MODE_PLAIN, MAX_MANIFEST_BYTES)
    requires Readable(flat, RECEIPT, MODE_PRIVATE, MAX_RECEIPT_BYTES)
    requires expected.isSigned ==> Readable(flat, SIGNATURE_NAME, MODE_PLAIN, 128)
  {
    exists inventory :: Inventoried(inventory, expected.manifest.files)
      && Exact(env.sha256, flat,
               inventory + Texts(flat[MANIFEST_NAME].data, flat[RECEIPT].data,
                                 if expected.isSigned then Some(flat[SIGNATURE_NAME].data) else None, env.sha256))
  }

  ghost predicate TreeAccepted(env: Env, folded: bytes -> bytes, codec: Codec, destination: bytes,
                               expected: Report, rootMode: nat, flat: map<bytes, Item>) {
    && Plausible(env, folded, expected) && rootMode == MODE_DIRECTORY
    && TextsOk(env, codec, destination, expected, flat) && TreeOk(env, expected, flat)
  }

  lemma InventoryUnique(a: map<bytes, Wanted>, b: map<bytes, Wanted>, files: seq<FileEntry>)
    requires Inventoried(a, files) && Inventoried(b, files)
    ensures a == b
  {
    forall p | p in a ensures a[p] == b[p] {
      if p in Leaves(files) {
        var f :| f in files && f.path == p;
      }
    }
  }

  method CheckReport(env: Env, folded: bytes -> bytes, expected: Report) returns (ok: bool)
    ensures ok <==> Plausible(env, folded, expected)
  {
    var valid := ValidateManifest(expected.manifest, true, env.lower);
    VerdictExact(expected.manifest, env.lower);
    hide ManifestOk, Verdict;
    if valid.Err? {
      return false;
    }
    var distinct := RejectInventoryAliases(expected.manifest.files, folded);
    hide AliasFree;
    var m := expected.manifest;
    ok := distinct.Ok? && m.platform.os == Ascii("darwin") && m.platform.arch == Ascii("arm64")
          && expected.filesVerified == |m.files| && expected.bytesVerified == TotalSize(m.files)
          && IsHash(expected.archiveSha256, 64) && IsHash(expected.manifestSha256, 64);
  }

  method CheckTexts(env: Env, codec: Codec, destination: bytes, expected: Report, entries: seq<Entry>)
    returns (r: Option<map<bytes, Wanted>>)
    requires WellListed(entries)
    ensures r.Some? <==> TextsOk(env, codec, destination, expected, Flat([], entries))
    ensures r.Some? ==> var flat := Flat([], entries);
              r.value == Texts(flat[MANIFEST_NAME].data, flat[RECEIPT].data,
                               if expected.isSigned then Some(flat[SIGNATURE_NAME].data) else None, env.sha256)
  {
    PlainNames();
    hide WellListed, Flat, Texts, Ascii, ReceiptFor;
    var raw := ReadFile(entries, MANIFEST_NAME, MODE_PLAIN, MAX_MANIFEST_BYTES);
    if raw.None? || env.sha256(raw.value) != expected.manifestSha256
       || env.decode(raw.value) != Some(expected.manifest) {
      return None;
    }
    var receipt := ReadFile(entries, RECEIPT, MODE_PRIVATE, MAX_RECEIPT_BYTES);
    if receipt.None? || codec.read(receipt.value) != Some(ReceiptFor(destination, expected)) {
      return None;
    }
    if !expected.isSigned {
      return Some(Texts(raw.value, receipt.value, None, env.sha256));
    }
    var signature := ReadFile(entries, SIGNATURE_NAME, MODE_PLAIN, 128);
    if signature.None? || env.signatureOf(signature.value).None? {
      return None;
    }
    r := Some(Texts(raw.value, receipt.value, signature, env.sha256));
  }

  lemma PlainNames()
    ensures NameOk(MANIFEST_NAME) && NameOk(RECEIPT) && NameOk(SIGNATURE_NAME)
  {
    InReserved();
    ReservedNames(MANIFEST_NAME);
    ReservedNames(RECEIPT);
    ReservedNames(SIGNATURE_NAME);
  }

  lemma Orderly(m: Manifest, lower: bytes -> bytes)
    requires ManifestOk(m, lower)
    ensures DistinctPaths(m.files) && NoConflict(m.files)
  {
  }

  /** `verify_installed`: accepts a tree exactly when it is the reported package,
      whole, unmodified and alone. */
  method VerifyInstalled(env: Env, folded: bytes -> bytes, codec: Codec, destination: bytes, expected: Report,
                         rootMode: nat, entries: seq<Entry>)
    returns (ok: bool)
    requires WellListed(entries)
    ensures ok <==> TreeAccepted(env, folded, codec, destination, expected, rootMode, Flat([], entries))
  {
    hide WellListed, Flat, Inventoried, Exact, Texts, Fits, ReceiptFor, Readable;
    ok := CheckReport(env, folded, expected);
    if !ok || rootMode != MODE_DIRECTORY {
      return false;
    }
    Orderly(expected.manifest, env.lower);
    hide Plausible;
    var texts := CheckTexts(env, codec, destination, expected, entries);
    if texts.None? {
      return false;
    }
    hide TextsOk;
    var inventory := BuildInventory(expected.manifest.files);
    forall other | Inventoried(other, expected.manifest.files) ensures other == inventory {
      InventoryUnique(other, inventory, expected.manifest.files);
    }
    ok := Scan(env.sha256, entries, inventory + texts.value, true);
    if ok {
      ok := Scan(env.sha256, entries, inventory + texts.value, false);
      SecondScan(env.sha256, Flat([], entries), inventory + texts.value);
    }
  }

  lemma SecondScan(sha256: bytes -> bytes, flat: map<bytes, Item>, expected: map<bytes, Wanted>)
    requires Exact(sha256, flat, expected)
    ensures flat.Keys == expected.Keys && Fits(sha256, flat, expected, false)
  {
  }

  // ----------------------------------------------- what an installation leaves

  function Links(t: Tree, inode: nat): nat {
    |set p <- t.names | t.names[p] == Leaf(inode)|
  }

  /** The listing shows this tree: kinds, modes, link counts and contents. */
  ghost predicate Depicts(flat: map<bytes, Item>, t: Tree) {
    && flat.Keys == t.names.Keys
    && forall p <- t.names :: DepictsAt(flat[p], t, t.names[p])
  }

  predicate DepictsAt(item: Item, t: Tree, node: Node) {
    match node
    case Folder => item.Directory? && item.mode == MODE_DIRECTORY
    case Leaf(i) => i < |t.inodes| && item == Regular(t.inodes[i].mode, Links(t, i), t.inodes[i].data)
  }

  lemma HeldIsSeen(flat: map<bytes, Item>, t: Tree, p: bytes, data: bytes, mode: nat)
    requires Depicts(flat, t) && Unshared(t) && Holds(t, p, data, mode)
    ensures p in flat && flat[p] == Regular(mode, 1, data)
  {
    var node := t.names[p];
    assert (set q <- t.names | t.names[q] == node) == {p};
  }

  lemma SameFiles(ds: seq<Delivered>, files: seq<FileEntry>)
    requires multiset(Entries(ds)) == multiset(files)
    ensures forall f <- files :: exists d :: d in ds && d.entry == f
    ensures forall d <- ds :: d.entry in files
    ensures DeliveredPaths(ds) == Leaves(files) && Needed(DeliveredPaths(ds)) == Directories(files)
  {
    var es := Entries(ds);
    SameElements(es, files);
    assert forall i :: 0 <= i < |ds| ==> es[i] == ds[i].entry && ds[i] in ds;
    forall f | f in files ensures exists d :: d in ds && d.entry == f {
      var i :| 0 <= i < |es| && es[i] == f;
    }
    forall d | d in ds ensures d.entry in files {
      var i :| 0 <= i < |ds| && ds[i] == d;
      assert es[i] in es;
    }
    hide Ancestors;
    assert DeliveredPaths(ds) == Leaves(files);
    forall a | a in Directories(files) ensures a in Needed(DeliveredPaths(ds)) {
      var f :| f in files && a in Ancestors(f.path);
      assert f.path in Leaves(files);
    }
  }

  lemma InventoryExists(files: seq<FileEntry>) returns (inventory: map<bytes, Wanted>)
    requires DistinctPaths(files) && NoConflict(files)
    ensures Inventoried(inventory, files)
  {
    IndexKeys(files);
    var index := Index(files);
    hide Index, Ancestors, DistinctPaths;
    inventory := map p | p in Leaves(files) + Directories(files) ::
      if p in Leaves(files) && p in index then WantFile(index[p].size, index[p].mode, index[p].sha256)
      else WantDirectory;
    forall a | a in Directories(files) ensures a !in Leaves(files) {
      var g :| g in files && a in Ancestors(g.path);
    }
  }

  /** Files and directories of a sealed tree match the inventory. */
  lemma PayloadMatches(env: Env, m: Manifest, t: Tree, flat: map<bytes, Item>, ds: seq<Delivered>,
                       metas: map<bytes, Inode>, inventory: map<bytes, Wanted>, p: bytes)
    requires Sealed(t, Needed(DeliveredPaths(ds)), ds, metas) && Depicts(flat, t)
    requires Contents(env, m, ds) && Inventoried(inventory, m.files) && p in inventory
    ensures p in flat && Matches(env.sha256, flat[p], inventory[p], true)
  {
    SameFiles(ds, m.files);
    hide Needed, Ancestors, Unshared, Holds;
    if p in Directories(m.files) {
      assert p in t.names && DepictsAt(flat[p], t, t.names[p]);
    } else {
      var f :| f in m.files && f.path == p;
      var d :| d in ds && d.entry == f;
      HeldIsSeen(flat, t, p, d.data, f.mode);
    }
  }

  lemma TextMatches(env: Env, t: Tree, flat: map<bytes, Item>, ds: seq<Delivered>, directories: set<bytes>,
                    raw: bytes, signature: Option<bytes>, receipt: bytes)
    requires Sealed(t, directories, ds, Receipted(raw, signature, receipt)) && Depicts(flat, t)
    ensures MANIFEST_NAME in flat && flat[MANIFEST_NAME] == Regular(MODE_PLAIN, 1, raw)
    ensures RECEIPT in flat && flat[RECEIPT] == Regular(MODE_PRIVATE, 1, receipt)
    ensures signature.Some? ==> SIGNATURE_NAME in flat && flat[SIGNATURE_NAME] == Regular(MODE_PLAIN, 1, signature.value)
  {
    var metas := Receipted(raw, signature, receipt);
    DistinctNames();
    hide Unshared, Depicts;
    assert MANIFEST_NAME in metas && RECEIPT in metas;
    assert signature.Some? ==> SIGNATURE_NAME in metas;
    hide Holds;
    HeldIsSeen(flat, t, MANIFEST_NAME, raw, MODE_PLAIN);
    HeldIsSeen(flat, t, RECEIPT, receipt, PRIVATE);
    if signature.Some? {
      HeldIsSeen(flat, t, SIGNATURE_NAME, signature.value, MODE_PLAIN);
    }
  }

  lemma SealedKeys(t: Tree, directories: set<bytes>, ds: seq<Delivered>, raw: bytes, signature: Option<bytes>,
                   receipt: bytes, sha256: bytes -> bytes)
    requires Sealed(t, directories, ds, Receipted(raw, signature, receipt))
    ensures t.names.Keys == directories + DeliveredPaths(ds) + Texts(raw, receipt, signature, sha256).Keys
  {
    hide Complete, Unshared;
  }

  lemma TextsMatch(env: Env, flat: map<bytes, Item>, raw: bytes, signature: Option<bytes>, receipt: bytes)
    requires MANIFEST_NAME in flat && flat[MANIFEST_NAME] == Regular(MODE_PLAIN, 1, raw)
    requires RECEIPT in flat && flat[RECEIPT] == Regular(MODE_PRIVATE, 1, receipt)
    requires signature.Some? ==> SIGNATURE_NAME in flat && flat[SIGNATURE_NAME] == Regular(MODE_PLAIN, 1, signature.value)
    ensures var texts := Texts(raw, receipt, signature, env.sha256);
            forall p <- texts :: p in flat && Matches(env.sha256, flat[p], texts[p], true)
  {
    DistinctNames();
  }

  lemma ExactSum(sha256: bytes -> bytes, flat: map<bytes, Item>, a: map<bytes, Wanted>, b: map<bytes, Wanted>)
    requires flat.Keys == a.Keys + b.Keys
    requires forall p <- a :: p in flat && Matches(sha256, flat[p], a[p], true)
    requires forall p <- b :: p in flat && Matches(sha256, flat[p], b[p], true)
    ensures Exact(sha256, flat, a + b)
  {
    hide Matches;
  }

  lemma KeysSplit(t: Tree, flat: map<bytes, Item>, m: Manifest, ds: seq<Delivered>, inventory: map<bytes, Wanted>,
                  raw: bytes, signature: Option<bytes>, receipt: bytes, sha256: bytes -> bytes)
    requires Sealed(t, Needed(DeliveredPaths(ds)), ds, Receipted(raw, signature, receipt)) && Depicts(flat, t)
    requires multiset(Entries(ds)) == multiset(m.files) && Inventoried(inventory, m.files)
    ensures flat.Keys == inventory.Keys + Texts(raw, receipt, signature, sha256).Keys
  {
    SameFiles(ds, m.files);
    SealedKeys(t, Needed(DeliveredPaths(ds)), ds, raw, signature, receipt, sha256);
    hide Sealed, Texts, DepictsAt, Leaves, Directories, Needed, DeliveredPaths;
  }

  /** The sealed tree is exactly the inventory and its texts. */
  lemma SealedExact(env: Env, m: Manifest, t: Tree, flat: map<bytes, Item>, ds: seq<Delivered>,
                    raw: bytes, signature: Option<bytes>, receipt: bytes)
    returns (inventory: map<bytes, Wanted>)
    requires Sealed(t, Needed(DeliveredPaths(ds)), ds, Receipted(raw, signature, receipt))
    requires Depicts(flat, t) && Contents(env, m, ds) && DistinctPaths(m.files) && NoConflict(m.files)
    ensures Inventoried(inventory, m.files)
    ensures Exact(env.sha256, flat, inventory + Texts(raw, receipt, signature, env.sha256))
  {
    inventory := InventoryExists(m.files);
    TextMatches(env, t, flat, ds, Needed(DeliveredPaths(ds)), raw, signature, receipt);
    TextsMatch(env, flat, raw, signature, receipt);
    KeysSplit(t, flat, m, ds, inventory, raw, signature, receipt, env.sha256);
    hide Sealed, Contents, NoConflict, DistinctPaths, Matches, Texts, Depicts, Inventoried, Exact;
    forall p | p in inventory ensures p in flat && Matches(env.sha256, flat[p], inventory[p], true) {
      PayloadMatches(env, m, t, flat, ds, Receipted(raw, signature, receipt), inventory, p);
    }
    ExactSum(env.sha256, flat, inventory, Texts(raw, receipt, signature, env.sha256));
  }

  lemma FrontSizes(env: Env, rest: bytes, key: Option<bytes>, allowUnsigned: bool)
    requires FrontRun(env, rest, key, allowUnsigned).Ok?
    ensures var front := FrontRun(env, rest, key, allowUnsigned).value;
            && |front.raw| <= MAX_MANIFEST_BYTES
            && (front.signature.Some? ==>
                  |front.signature.value| <= 128 && env.signatureOf(front.signature.value).Some?)
  {
    hide NextHeader, SkipPadding, Verdict;
  }

  function ReceiptWriter(codec: Codec, destination: bytes): Report -> bytes {
    (report: Report) => codec.write(ReceiptFor(destination, report))
  }

  /** Any sealed tree is accepted under the report that describes it. */
  lemma SealedAccepted(env: Env, folded: bytes -> bytes, codec: Codec, destination: bytes, report: Report,
                       raw: bytes, signature: Option<bytes>, t: Tree, flat: map<bytes, Item>, ds: seq<Delivered>)
    requires var receipt := codec.write(ReceiptFor(destination, report));
             && Sealed(t, Needed(DeliveredPaths(ds)), ds, Receipted(raw, signature, receipt))
             && codec.read(receipt) == Some(ReceiptFor(destination, report)) && |receipt| <= MAX_RECEIPT_BYTES
    requires Depicts(flat, t) && Contents(env, report.manifest, ds) && Plausible(env, folded, report)
    requires env.sha256(raw) == report.manifestSha256 && env.decode(raw) == Some(report.manifest)
    requires |raw| <= MAX_MANIFEST_BYTES && (report.isSigned <==> signature.Some?)
    requires signature.Some? ==> |signature.value| <= 128 && env.signatureOf(signature.value).Some?
    ensures TreeAccepted(env, folded, codec, destination, report, MODE_DIRECTORY, flat)
  {
    var receipt := codec.write(ReceiptFor(destination, report));
    Orderly(report.manifest, env.lower);
    hide ReceiptFor, Plausible, Sealed, Contents, Depicts, DistinctPaths, NoConflict, Receipted, Needed,
      DeliveredPaths, Exact, Inventoried, Texts;
    hide Leaves, Directories, Matches, Fits, DepictsAt;
    var inventory := SealedExact(env, report.manifest, t, flat, ds, raw, signature, receipt);
    TextMatches(env, t, flat, ds, Needed(DeliveredPaths(ds)), raw, signature, receipt);
    TextsAccepted(env, codec, destination, report, flat, raw, signature, receipt);
    hide TextsOk;
    TreeIs(env, report, flat, inventory, raw, signature, receipt);
  }

  lemma TextsAccepted(env: Env, codec: Codec, destination: bytes, report: Report, flat: map<bytes, Item>,
                      raw: bytes, signature: Option<bytes>, receipt: bytes)
    requires MANIFEST_NAME in flat && flat[MANIFEST_NAME] == Regular(MODE_PLAIN, 1, raw)
    requires RECEIPT in flat && flat[RECEIPT] == Regular(MODE_PRIVATE, 1, receipt)
    requires signature.Some? ==> SIGNATURE_NAME in flat && flat[SIGNATURE_NAME] == Regular(MODE_PLAIN, 1, signature.value)
    requires codec.read(receipt) == Some(ReceiptFor(destination, report)) && |receipt| <= MAX_RECEIPT_BYTES
    requires env.sha256(raw) == report.manifestSha256 && env.decode(raw) == Some(report.manifest)
    requires |raw| <= MAX_MANIFEST_BYTES && (report.isSigned <==> signature.Some?)
    requires signature.Some? ==> |signature.value| <= 128 && env.signatureOf(signature.value).Some?
    ensures TextsOk(env, codec, destination, report, flat)
    ensures flat[MANIFEST_NAME].data == raw && flat[RECEIPT].data == receipt
    ensures signature == if report.isSigned then Some(flat[SIGNATURE_NAME].data) else None
    ensures Readable(flat, MANIFEST_NAME, MODE_PLAIN, MAX_MANIFEST_BYTES)
    ensures Readable(flat, RECEIPT, MODE_PRIVATE, MAX_RECEIPT_BYTES)
    ensures report.isSigned ==> Readable(flat, SIGNATURE_NAME, MODE_PLAIN, 128)
  {
    hide ReceiptFor;
  }

  lemma TreeIs(env: Env, report: Report, flat: map<bytes, Item>, inventory: map<bytes, Wanted>,
               raw: bytes, signature: Option<bytes>, receipt: bytes)
    requires Readable(flat, MANIFEST_NAME, MODE_PLAIN, MAX_MANIFEST_BYTES) && flat[MANIFEST_NAME].data == raw
    requires Readable(flat, RECEIPT, MODE_PRIVATE, MAX_RECEIPT_BYTES) && flat[RECEIPT].data == receipt
    requires report.isSigned ==> Readable(flat, SIGNATURE_NAME, MODE_PLAIN, 128)
    requires signature == if report.isSigned then Some(flat[SIGNATURE_NAME].data) else None
    requires Inventoried(inventory, report.manifest.files)
    requires Exact(env.sha256, flat, inventory + Texts(raw, receipt, signature, env.sha256))
    ensures TreeOk(env, report, flat)
  {
    hide Exact, Inventoried, Texts;
  }

  lemma AcceptedPlausible(env: Env, archive: bytes, key: Option<bytes>, allowUnsigned: bool, folded: bytes -> bytes)
    requires Accepts(env, archive, key, allowUnsigned) && forall x :: IsHash(env.sha256(x), 64)
    requires Installable(Accepted(env, archive, key, allowUnsigned), folded)
    ensures var v := Transcript(env, archive, key, allowUnsigned).result.value;
            && Plausible(env, folded, ReportOf(env, archive, v))
            && env.decode(v.front.raw) == Some(v.front.manifest)
  {
    var ds := VerifierSound(env, archive, key, allowUnsigned);
    hide Transcript, ManifestOk, Installable, IsHash, AllEvents, Genuine, TotalSize, TrustOk;
  }

  /** `verify_installed` accepts the tree that a successful `install` leaves, given
      the report that the installation returned. */
  lemma CommittedVerifies(env: Env, archive: bytes, key: Option<bytes>, allowUnsigned: bool, codec: Codec,
                          destination: bytes, folded: bytes -> bytes, t: Tree, flat: map<bytes, Item>)
    requires Installed(env, archive, key, allowUnsigned, ReceiptWriter(codec, destination), folded, t)
    requires Depicts(flat, t) && forall x :: IsHash(env.sha256(x), 64)
    requires var report := ReportOf(env, archive, Transcript(env, archive, key, allowUnsigned).result.value);
             var receipt := codec.write(ReceiptFor(destination, report));
             codec.read(receipt) == Some(ReceiptFor(destination, report)) && |receipt| <= MAX_RECEIPT_BYTES
    ensures var report := ReportOf(env, archive, Transcript(env, archive, key, allowUnsigned).result.value);
            TreeAccepted(env, folded, codec, destination, report, MODE_DIRECTORY, flat)
  {
    var encode := ReceiptWriter(codec, destination);
    RecordsAre(env, archive, key, allowUnsigned, encode);
    AcceptedPlausible(env, archive, key, allowUnsigned, folded);
    AcceptedFront(env, archive, key, allowUnsigned);
    var v := Transcript(env, archive, key, allowUnsigned).result.value;
    hide Transcript, Accepts, Accepted, Records, Sealed, Contents, Depicts, Receipted, Needed, DeliveredPaths,
      Plausible, ReceiptFor, Installable, IsHash, TreeAccepted;
    var ds: seq<Delivered> :| Contents(env, v.front.manifest, ds)
      && Sealed(t, Needed(DeliveredPaths(ds)), ds, Records(env, archive, key, allowUnsigned, encode));
    SealedAccepted(env, folded, codec, destination, ReportOf(env, archive, v), v.front.raw, v.front.signature,
                   t, flat, ds);
  }

  lemma AcceptedFront(env: Env, archive: bytes, key: Option<bytes>, allowUnsigned: bool)
    requires Accepts(env, archive, key, allowUnsigned)
    ensures var front := Transcript(env, archive, key, allowUnsigned).result.value.front;
            && |front.raw| <= MAX_MANIFEST_BYTES
            && (front.signature.Some? ==>
                  |front.signature.value| <= 128 && env.signatureOf(front.signature.value).Some?)
  {
    FrontSizes(env, Visible(env.gunzip(archive).plain), key, allowUnsigned);
    hide FrontRun, FilesRun;
  }
}
