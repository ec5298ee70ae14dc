/** Streaming installation: unpacking, commit and receipt. */
module Installer {
  import opened Prelude
  import opened Paths
  import opened Package
  import opened Inventory
  import opened Aliases
  import opened Printer
  import opened Verifier
  import opened Soundness

  // src/install.rs: the payload sink that unpacks a verified stream into a new
  // directory, and the commit that publishes the receipt by hard link. Every state
  // of the tree is recorded, since a crash may leave any of them behind.

  const RECEIPT: bytes := Ascii(".bxdl-install.json")
  const RECEIPT_TEMP: bytes := Ascii(".bxdl-install-receipt.tmp")
  const RESERVED: set<bytes> := {RECEIPT, RECEIPT_TEMP, MANIFEST_NAME, SIGNATURE_NAME}
  const PRIVATE: nat := 0x180 // 0600

  // ---------------------------------------------------------------- the tree

  datatype Node = Folder | Leaf(inode: nat)

  datatype Inode = Inode(data: bytes, mode: nat)

  /** Names below the installation root; inode numbers are never reused. */
  datatype Tree = Tree(names: map<bytes, Node>, inodes: seq<Inode>)

  predicate Holds(t: Tree, p: bytes, data: bytes, mode: nat) {
    && p in t.names && t.names[p].Leaf? && t.names[p].inode < |t.inodes|
    && t.inodes[t.names[p].inode] == Inode(data, mode)
  }

  /** The file system. Any operation may report a failure, whether or not it took
      effect: a fault. Without faults an operation fails only for its names. */
  class Disk {
    var tree: Tree
    ghost var history: seq<Tree>
    ghost var faults: nat

    constructor ()
      ensures tree == Tree(map[], []) && history == [tree]
    {
      tree := Tree(map[], []);
      history := [Tree(map[], [])];
    }

    method Become(t: Tree)
      modifies this
      ensures tree == t && history == old(history) + [t] && faults == old(faults)
    {
      tree := t;
      history := history + [t];
    }

    /** Looking again at what is already there. */
    method Check() returns (ok: bool)
      modifies this`faults
      ensures faults == old(faults) + if ok then 0 else 1
    {
      ok := *;
      if !ok {
        faults := faults + 1;
      }
    }

    /** One operation that may be done: whether it is, and whether that is reported. */
    method Attempt(possible: bool, t: Tree) returns (ok: bool)
      modifies this
      ensures tree == old(tree) || (possible && tree == t)
      ensures history == old(history) + [tree]
      ensures ok ==> possible && tree == t
      ensures faults == old(faults) + if !ok && possible then 1 else 0
    {
      var done: bool := *;
      done := done && possible;
      ok := *;
      ok := ok && done;
      if !ok && possible {
        faults := faults + 1;
      }
      Become(if done then t else tree);
    }

    method MakeDir(p: bytes) returns (ok: bool)
      modifies this
      ensures ok ==> p !in old(tree).names
      ensures tree == old(tree).(names := old(tree).names[p := Folder]) || (!ok && tree == old(tree))
      ensures history == old(history) + [tree]
      ensures ok <==> faults == old(faults) && p !in old(tree).names
      ensures faults >= old(faults)
    {
      ok := Attempt(p !in tree.names, tree.(names := tree.names[p := Folder]));
    }

    method CreateNew(p: bytes) returns (ok: bool, inode: nat)
      modifies this
      ensures ok ==> p !in old(tree).names && inode == |old(tree).inodes|
      ensures tree == Tree(old(tree).names[p := Leaf(inode)], old(tree).inodes + [Inode([], PRIVATE)])
           || (!ok && tree == old(tree))
      ensures history == old(history) + [tree]
      ensures ok <==> faults == old(faults) && p !in old(tree).names
      ensures faults >= old(faults)
    {
      inode := |tree.inodes|;
      ok := Attempt(p !in tree.names, Tree(tree.names[p := Leaf(inode)], tree.inodes + [Inode([], PRIVATE)]));
    }

    /** Appends piece by piece; a failure leaves what was written before it. */
    method WriteAll(inode: nat, data: bytes) returns (ok: bool)
      requires inode < |tree.inodes|
      modifies this
      ensures tree.names == old(tree).names && |tree.inodes| == |old(tree).inodes|
      ensures ok ==> tree.inodes == old(tree).inodes[inode := Appended(old(tree).inodes[inode], data)]
      ensures old(history) <= history
      ensures forall i :: |old(history)| <= i < |history| ==> history[i].names == tree.names
      ensures faults == old(faults) + if ok then 0 else 1
    {
      var sent := 0;
      assert old(tree).inodes[inode].data + data[..0] == old(tree).inodes[inode].data;
      while sent < |data|
        invariant 0 <= sent <= |data| && inode < |tree.inodes|
        invariant tree == old(tree).(inodes := old(tree).inodes[inode := Appended(old(tree).inodes[inode], data[..sent])])
        invariant old(history) <= history
        invariant forall i :: |old(history)| <= i < |history| ==> history[i].names == tree.names
        invariant faults == old(faults)
      {
        ok := Check();
        if !ok {
          return;
        }
        var piece: int := *;
        if piece <= 0 || piece > |data| - sent {
          piece := |data| - sent;
        }
        assert old(tree).inodes[inode].data + data[..sent + piece]
            == old(tree).inodes[inode].data + data[..sent] + data[sent..sent + piece];
        Become(tree.(inodes := tree.inodes[inode := Appended(tree.inodes[inode], data[sent..sent + piece])]));
        sent := sent + piece;
      }
      assert data[..sent] == data;
      ok := Check();
    }

    method SetMode(inode: nat, mode: nat) returns (ok: bool)
      requires inode < |tree.inodes|
      modifies this
      ensures tree == old(tree).(inodes := old(tree).inodes[inode := Inode(old(tree).inodes[inode].data, mode)])
           || (!ok && tree == old(tree))
      ensures history == old(history) + [tree]
      ensures faults == old(faults) + if ok then 0 else 1
    {
      ok := Attempt(true, tree.(inodes := tree.inodes[inode := Inode(tree.inodes[inode].data, mode)]));
    }

    method HardLink(from: bytes, to: bytes) returns (ok: bool)
      modifies this
      ensures (from in old(tree).names && to !in old(tree).names
               && tree == old(tree).(names := old(tree).names[to := old(tree).names[from]]))
           || (!ok && tree == old(tree))
      ensures history == old(history) + [tree]
      ensures ok <==> faults == old(faults) && from in old(tree).names && to !in old(tree).names
      ensures faults >= old(faults)
    {
      var possible := from in tree.names && to !in tree.names;
      ok := Attempt(possible, if possible then tree.(names := tree.names[to := tree.names[from]]) else tree);
    }

    method Remove(p: bytes) returns (ok: bool)
      modifies this
      ensures ok ==> p in old(tree).names
      ensures tree == old(tree).(names := old(tree).names - {p}) || (!ok && tree == old(tree))
      ensures history == old(history) + [tree]
      ensures ok <==> faults == old(faults) && p in old(tree).names
      ensures faults >= old(faults)
      ensures faults == old(faults) ==> p !in tree.names
    {
      ok := Attempt(p in tree.names, tree.(names := tree.names - {p}));
    }
  }

  function Appended(i: Inode, data: bytes): Inode {
    Inode(i.data + data, i.mode)
  }

  // ------------------------------------------------- what the calls amount to

  /** The files unpacked so far, and the one being written. */
  datatype Unpacked = Unpacked(done: seq<Delivered>, active: Option<Delivered>)

  function Feed(u: Unpacked, e: Event): Option<Unpacked> {
    match e
    case Begin(_, _, _) => None
    case StartFile(entry) => if u.active.Some? then None else Some(Unpacked(u.done, Some(Delivered(entry, []))))
    case WriteChunk(data) =>
      if u.active.None? || |u.active.value.data| + |data| > u.active.value.entry.size then None
      else Some(Unpacked(u.done, Some(Delivered(u.active.value.entry, u.active.value.data + data))))
    case FinishFile =>
      if u.active.None? || |u.active.value.data| != u.active.value.entry.size then None
      else Some(Unpacked(u.done + [u.active.value], None))
  }

  function FeedAll(u: Unpacked, events: seq<Event>): Option<Unpacked>
    decreases |events|
  {
    if events == [] then Some(u)
    else match Feed(u, events[0])
      case None => None
      case Some(v) => FeedAll(v, events[1..])
  }

  lemma {:induction false} FeedAppend(u: Unpacked, a: seq<Event>, b: seq<Event>)
    ensures FeedAll(u, a + b) == match FeedAll(u, a) case None => None case Some(v) => FeedAll(v, b)
    decreases |a|
  {
    if a == [] {
      assert a + b == b;
    } else {
      assert (a + b)[1..] == a[1..] + b;
      if Feed(u, a[0]).Some? {
        FeedAppend(Feed(u, a[0]).value, a[1..], b);
      }
    }
  }

  lemma {:induction false} FeedChunks(done: seq<Delivered>, entry: FileEntry, had: bytes, data: bytes)
    requires |had| + |data| <= entry.size
    ensures FeedAll(Unpacked(done, Some(Delivered(entry, had))), Chunks(data))
         == Some(Unpacked(done, Some(Delivered(entry, had + data))))
    decreases |data|
  {
    if data == [] {
      assert had + data == had;
    } else {
      var n := Min(|data|, CHUNK);
      var e := WriteChunk(data[..n]);
      assert Chunks(data) == [e] + Chunks(data[n..]);
      assert had + data[..n] + data[n..] == had + data;
      FeedChunks(done, entry, had + data[..n], data[n..]);
      FeedFirst(Unpacked(done, Some(Delivered(entry, had))), e, Chunks(data[n..]));
    }
  }

  lemma FeedFirst(u: Unpacked, e: Event, more: seq<Event>)
    ensures FeedAll(u, [e] + more) == match Feed(u, e) case None => None case Some(v) => FeedAll(v, more)
  {
    assert ([e] + more)[1..] == more;
  }

  lemma FeedFile(done: seq<Delivered>, d: Delivered)
    requires |d.data| == d.entry.size
    ensures FeedAll(Unpacked(done, None), FileEvents(d)) == Some(Unpacked(done + [d], None))
  {
    var begun := Unpacked(done, Some(Delivered(d.entry, [])));
    assert FileEvents(d) == [StartFile(d.entry)] + (Chunks(d.data) + [FinishFile]);
    FeedFirst(Unpacked(done, None), StartFile(d.entry), Chunks(d.data) + [FinishFile]);
    FeedAppend(begun, Chunks(d.data), [FinishFile]);
    FeedChunks(done, d.entry, [], d.data);
    assert [] + d.data == d.data;
    assert [FinishFile] == [FinishFile] + [];
    FeedFirst(Unpacked(done, Some(d)), FinishFile, []);
  }

  /** The verifier's calls for a list of files unpack exactly that list. */
  lemma {:induction false} FeedFiles(done: seq<Delivered>, ds: seq<Delivered>)
    requires forall d <- ds :: |d.data| == d.entry.size
    ensures FeedAll(Unpacked(done, None), AllEvents(ds)) == Some(Unpacked(done + ds, None))
    decreases |ds|
  {
    if ds == [] {
      assert done + ds == done;
    } else {
      FeedFile(done, ds[0]);
      FeedAppend(Unpacked(done, None), FileEvents(ds[0]), AllEvents(ds[1..]));
      FeedFiles(done + [ds[0]], ds[1..]);
      assert done + [ds[0]] + ds[1..] == done + ds;
    }
  }

  // ------------------------------------------------------------- the invariant

  datatype Stored = Stored(entry: FileEntry, inode: nat)

  datatype Writing = Writing(entry: FileEntry, inode: nat, written: nat)

  /** A payload path keeps clear of the names that the commit itself writes. */
  predicate Clear(p: bytes) {
    p !in RESERVED && Ancestors(p) !! RESERVED
  }

  /** Finished files, the first `final` of them with their final mode. */
  ghost predicate FilesLaid(t: Tree, files: seq<Stored>, done: seq<Delivered>, final: nat) {
    && |files| == |done| && final <= |files|
    && (forall i :: 0 <= i < |files| ==>
          && files[i].entry == done[i].entry && |done[i].data| == done[i].entry.size
          && files[i].entry.path in t.names && t.names[files[i].entry.path] == Leaf(files[i].inode)
          && files[i].inode < |t.inodes|
          && t.inodes[files[i].inode] == Inode(done[i].data, if i < final then files[i].entry.mode else PRIVATE))
    && (forall i, j :: 0 <= i < j < |files| ==> files[i].inode < files[j].inode)
  }

  ghost predicate ActiveLaid(t: Tree, files: seq<Stored>, active: Option<Writing>, got: Option<Delivered>) {
    && active.Some? == got.Some?
    && (active.Some? ==>
          && active.value.entry == got.value.entry && active.value.written == |got.value.data|
          && |got.value.data| <= got.value.entry.size
          && active.value.entry.path in t.names && t.names[active.value.entry.path] == Leaf(active.value.inode)
          && active.value.inode < |t.inodes| && t.inodes[active.value.inode] == Inode(got.value.data, PRIVATE)
          && forall f <- files :: f.inode < active.value.inode)
  }

  /** Every name is a directory made on the way, a finished file or the one in hand. */
  ghost predicate Accounted(t: Tree, directories: set<bytes>, files: seq<Stored>, active: Option<Writing>) {
    && (forall p <- directories :: p in t.names && t.names[p].Folder?)
    && (forall p <- t.names ::
          || (p in directories && t.names[p].Folder?)
          || (exists f <- files :: f.entry.path == p)
          || (active.Some? && active.value.entry.path == p))
    && t.names.Keys !! RESERVED
  }

  ghost predicate Laid(t: Tree, directories: set<bytes>, files: seq<Stored>, active: Option<Writing>,
                       got: Unpacked, final: nat) {
    && FilesLaid(t, files, got.done, final)
    && ActiveLaid(t, files, active, got.active)
    && Accounted(t, directories, files, active)
  }

  function Needed(paths: set<bytes>): set<bytes> {
    set p <- paths, a <- Ancestors(p) :: a
  }

  function PathsOf(files: seq<Stored>, active: Option<Writing>): set<bytes> {
    (set f <- files :: f.entry.path) + if active.Some? then {active.value.entry.path} else {}
  }

  ghost predicate NoReceipt(t: Tree) {
    RECEIPT !in t.names
  }

  /** What `begin` demands of a manifest: the platform, and no colliding names. */
  ghost predicate Installable(m: Manifest, folded: bytes -> bytes) {
    m.platform.os == Ascii("darwin") && m.platform.arch == Ascii("arm64") && AliasFree(m.files, folded)
  }

  /** A file may start at this path: it names nothing yet, and nothing on the way to
      it is a file. */
  ghost predicate Fresh(path: bytes, paths: set<bytes>) {
    path !in paths && path !in Needed(paths) && Ancestors(path) !! paths
  }

  /** How a commit ends: done, without a link, or linked and not confirmed. */
  datatype Commitment = Committed | NotLinked | Unconfirmed

  // --------------------------------------------------------------- the installer

  class Unpacker {
    const disk: Disk
    const folded: bytes -> bytes
    var reserved: bool
    var directories: set<bytes>
    var files: seq<Stored>
    var active: Option<Writing>
    var manifestBytes: bytes
    var signature: Option<bytes>
    ghost var got: Unpacked
    ghost var final: nat

    ghost predicate Unpublished()
      reads disk
    {
      forall t <- disk.history :: NoReceipt(t)
    }

    ghost predicate Valid()
      reads this, disk
    {
      Laid(disk.tree, directories, files, active, got, final) && Unpublished()
    }

    constructor (disk: Disk, folded: bytes -> bytes)
      requires disk.tree == Tree(map[], []) && disk.history == [disk.tree]
      ensures Tidy() && got == Unpacked([], None) && final == 0 && !reserved
      ensures this.disk == disk && this.folded == folded
    {
      this.disk, this.folded := disk, folded;
      reserved, directories, files, active := false, {}, [], None;
      manifestBytes, signature := [], None;
      got, final := Unpacked([], None), 0;
    }

    /** Between calls: only directories that some file needs have been made. */
    ghost predicate Tidy()
      reads this, disk
    {
      Valid() && directories == Needed(PathsOf(files, active)) && forall p <- PathsOf(files, active) :: Clear(p)
    }

    /** `begin`: an admissible target, no aliases, and a fresh empty root. */
    method Reserve(m: Manifest, raw: bytes, sig: Option<bytes>) returns (ok: bool)
      requires Tidy() && !reserved
      modifies this`manifestBytes, this`signature, this`reserved, disk`faults
      ensures Tidy() && reserved == ok
      ensures ok ==> manifestBytes == raw && signature == sig
      ensures ok <==> Installable(m, folded) && disk.faults == old(disk.faults)
      ensures disk.faults >= old(disk.faults)
    {
      if m.platform.os != Ascii("darwin") || m.platform.arch != Ascii("arm64") {
        return false;
      }
      var distinct := RejectInventoryAliases(m.files, folded);
      if distinct.Err? {
        return false;
      }
      manifestBytes, signature := raw, sig;
      ok := disk.Check();
      reserved := ok;
    }

    /** `file_parent`: makes the directories on the way to a file. */
    method FileParent(path: bytes) returns (ok: bool)
      requires Valid() && Clear(path)
      modifies this`directories, disk
      ensures Unpublished()
      ensures ok ==> Valid() && directories == old(directories) + Ancestors(path)
      ensures ok && Ancestors(path) <= old(directories) ==> disk.tree == old(disk.tree)
      ensures disk.faults >= old(disk.faults) && (ok ==> disk.faults == old(disk.faults))
      ensures !ok && disk.faults == old(disk.faults) ==> !(Ancestors(path) !! PathsOf(files, active))
    {
      var parts := Split(path);
      SplitCount(path);
      ghost var before := directories;
      hide Laid, NoReceipt, Split, Join, Ancestors, RESERVED, PathsOf;
      for end := 1 to |parts|
        invariant Valid()
        invariant directories == before + Prefixes(path, end)
        invariant Ancestors(path) <= before ==> disk.tree == old(disk.tree)
        invariant disk.faults == old(disk.faults)
      {
        var relative := Join(parts[..end]);
        PrefixesStep(path, parts, end);
        if relative !in directories {
          ok := MakeDirectory(relative);
          if !ok {
            return;
          }
        }
      }
      PrefixesAll(path);
      ok := true;
    }

    method MakeDirectory(p: bytes) returns (ok: bool)
      requires Valid() && p !in RESERVED
      modifies this`directories, disk
      ensures Unpublished()
      ensures ok ==> Valid() && directories == old(directories) + {p}
      ensures disk.faults >= old(disk.faults) && (ok ==> disk.faults == old(disk.faults))
      ensures !ok && disk.faults == old(disk.faults) ==> p in old(directories) || p in PathsOf(files, active)
    {
      ghost var before := disk.tree;
      NamesAre(before, directories, files, active, got, final);
      hide Laid, PathsOf;
      ok := disk.MakeDir(p);
      if ok {
        FolderAdded(before, directories, files, active, got, final, p);
        directories := directories + {p};
        ok := disk.Check();
      }
    }

    method StartFile(entry: FileEntry) returns (ok: bool)
      requires Tidy() && Clear(entry.path)
      modifies this`directories, this`active, this`got, disk
      ensures Unpublished()
      ensures ok ==> Tidy() && Feed(old(got), Event.StartFile(entry)) == Some(got)
      ensures disk.faults >= old(disk.faults) && (ok ==> disk.faults == old(disk.faults))
      ensures !ok && disk.faults == old(disk.faults) ==>
                old(got).active.Some? || !Fresh(entry.path, PathsOf(files, None))
    {
      hide Laid, NoReceipt;
      LaidCounts(disk.tree, directories, files, active, got, final);
      if active.Some? {
        return false;
      }
      ok := FileParent(entry.path);
      if !ok {
        return;
      }
      ghost var before := disk.tree;
      var inode;
      LaidUnpublished(before, directories, files, active, got, final);
      NamesAre(before, directories, files, active, got, final);
      NeededPlus(PathsOf(files, None), entry.path);
      ok, inode := disk.CreateNew(entry.path);
      StillNoReceipt(before, disk.tree, entry.path);
      if ok {
        FileAdded(before, directories, files, got, final, entry);
        active := Some(Writing(entry, inode, 0));
        got := Unpacked(got.done, Some(Delivered(entry, [])));
        ok := disk.Check();
      }
    }

    method WriteChunk(data: bytes) returns (ok: bool)
      requires Tidy()
      modifies this`active, this`got, disk
      ensures Unpublished()
      ensures ok ==> Tidy() && Feed(old(got), Event.WriteChunk(data)) == Some(got)
      ensures disk.faults >= old(disk.faults) && (ok ==> disk.faults == old(disk.faults))
      ensures !ok && disk.faults == old(disk.faults) ==> Feed(old(got), Event.WriteChunk(data)) == None
    {
      if active.None? || |data| > active.value.entry.size - active.value.written {
        return false;
      }
      ghost var before := disk.tree;
      var w := active.value;
      ok := disk.WriteAll(w.inode, data);
      if ok {
        ChunkAdded(before, directories, files, w, got, final, data);
        active := Some(Writing(w.entry, w.inode, w.written + |data|));
        got := Unpacked(got.done, Some(Delivered(w.entry, got.active.value.data + data)));
      }
    }

    method FinishFile() returns (ok: bool)
      requires Tidy()
      modifies this`active, this`files, this`got, disk`faults
      ensures Unpublished()
      ensures ok ==> Tidy() && Feed(old(got), Event.FinishFile) == Some(got)
      ensures disk.faults >= old(disk.faults) && (ok ==> disk.faults == old(disk.faults))
      ensures !ok && disk.faults == old(disk.faults) ==> Feed(old(got), Event.FinishFile) == None
    {
      hide Laid;
      LaidCounts(disk.tree, directories, files, active, got, final);
      if active.None? {
        return false;
      }
      var w := active.value;
      active := None;
      ok := disk.Check();
      ok := ok && w.written == w.entry.size;
      if ok {
        FileDone(disk.tree, directories, files, w, got, final);
        PathsDone(files, w);
        files := files + [Stored(w.entry, w.inode)];
        got := Unpacked(got.done + [got.active.value], None);
      }
    }

    /** The sink's methods, by the call that the verifier makes. */
    method Handle(e: Event) returns (ok: bool)
      requires Tidy() && (reserved <==> !e.Begin?) && (e.StartFile? ==> Clear(e.entry.path))
      modifies this, disk
      ensures Unpublished() && final == old(final)
      ensures ok ==> Tidy() && reserved
      ensures ok && e.Begin? ==> got == old(got) && manifestBytes == e.raw && signature == e.signature
      ensures ok && e.Begin? ==> Installable(e.manifest, folded)
      ensures ok && !e.Begin? ==>
                Feed(old(got), e) == Some(got) && manifestBytes == old(manifestBytes) && signature == old(signature)
      ensures disk.faults >= old(disk.faults) && (ok ==> disk.faults == old(disk.faults))
      ensures !ok && disk.faults == old(disk.faults) ==> Refusable(old(got), e, folded)
    {
      hide Laid, NoReceipt, Clear, Needed, PathsOf, Installable, Fresh, Started;
      StartedPaths(disk.tree, directories, files, active, got, final);
      LaidCounts(disk.tree, directories, files, active, got, final);
      match e
      case Begin(manifest, raw, sig) => ok := Reserve(manifest, raw, sig);
      case StartFile(entry) => ok := StartFile(entry);
      case WriteChunk(data) => ok := WriteChunk(data);
      case FinishFile => ok := FinishFile();
    }

    // ------------------------------------------------------------ the commit

    /** The first loop of `commit`: final modes for all files, one by one. */
    method SetModes() returns (ok: bool)
      requires Tidy() && active.None? && final == 0
      modifies disk, this`directories, this`final
      ensures Unpublished()
      ensures ok ==> Tidy() && final == |files|
      ensures disk.faults >= old(disk.faults) && (ok <==> disk.faults == old(disk.faults))
    {
      hide Laid, Clear, Needed;
      for i := 0 to |files|
        invariant Tidy() && final == i
        invariant disk.faults == old(disk.faults)
      {
        NamesAre(disk.tree, directories, files, active, got, final);
        NeededHas(PathsOf(files, active), files[i].entry.path);
        ok := FileParent(files[i].entry.path);
        if !ok {
          return;
        }
        ghost var before := disk.tree;
        FileAt(before, directories, files, got, i);
        LaidUnpublished(before, directories, files, active, got, final);
        ok := disk.SetMode(files[i].inode, files[i].entry.mode);
        if !ok {
          return;
        }
        ModeSet(before, directories, files, got, i);
        final := i + 1;
      }
      ok := true;
    }

    /** `write_regular`: a new file with its contents and mode. */
    method WriteRegular(name: bytes, raw: bytes, mode: nat) returns (ok: bool)
      requires Unpublished() && name != RECEIPT && NoReceipt(disk.tree)
      modifies disk
      ensures Unpublished()
      ensures ok ==> name !in old(disk.tree).names && disk.tree == WithFile(old(disk.tree), name, raw, mode)
      ensures ok ==> NoReceipt(disk.tree)
      ensures disk.faults >= old(disk.faults)
      ensures ok <==> disk.faults == old(disk.faults) && name !in old(disk.tree).names
    {
      var inode;
      ok, inode := disk.CreateNew(name);
      if !ok {
        return;
      }
      ok := disk.WriteAll(inode, raw);
      if !ok {
        return;
      }
      ok := disk.SetMode(inode, mode);
      assert [] + raw == raw;
    }

    /** The commit up to the receipt under its temporary name. */
    method Stage(receipt: bytes) returns (ok: bool)
      requires Tidy() && active.None? && final == 0
      modifies disk, this`directories, this`final
      ensures Unpublished()
      ensures ok ==> Sealed(disk.tree, directories, got.done,
                            Metas(manifestBytes, signature)[RECEIPT_TEMP := Inode(receipt, PRIVATE)])
      ensures ok ==> directories == Needed(DeliveredPaths(got.done)) && NoReceipt(disk.tree)
      ensures ok ==> forall d <- got.done :: d.entry.path !in RESERVED
      ensures disk.faults >= old(disk.faults) && (ok <==> disk.faults == old(disk.faults))
    {
      hide Needed, PathsOf, Clear, Laid, Sealed, NoReceipt, RESERVED;
      InReserved();
      ok := SetModes();
      if !ok {
        return;
      }
      LaidSealed(disk.tree, directories, files, got);
      ghost var t := disk.tree;
      DistinctNames();
      ok := WriteRegular(MANIFEST_NAME, manifestBytes, MODE_PLAIN);
      if !ok {
        return;
      }
      ghost var metas: map<bytes, Inode> := map[];
      SealedPlus(t, directories, got.done, metas, MANIFEST_NAME, manifestBytes, MODE_PLAIN);
      metas, t := metas[MANIFEST_NAME := Inode(manifestBytes, MODE_PLAIN)], disk.tree;
      if signature.Some? {
        ok := WriteRegular(SIGNATURE_NAME, signature.value, MODE_PLAIN);
        if !ok {
          return;
        }
        SealedPlus(t, directories, got.done, metas, SIGNATURE_NAME, signature.value, MODE_PLAIN);
        metas, t := metas[SIGNATURE_NAME := Inode(signature.value, MODE_PLAIN)], disk.tree;
      }
      assert metas == Metas(manifestBytes, signature);
      ok := WriteRegular(RECEIPT_TEMP, receipt, PRIVATE);
      if ok {
        SealedPlus(t, directories, got.done, metas, RECEIPT_TEMP, receipt, PRIVATE);
      }
    }

    /** `commit`: the receipt appears by one hard link, when all else is in place. */
    method Commit(receipt: bytes, filesVerified: nat) returns (r: Commitment)
      requires Tidy() && final == 0
      modifies disk, this`directories, this`final
      ensures Vouched(disk.history, got.done, Receipted(manifestBytes, signature, receipt))
      ensures Unpublished() || (got.active.None? && |got.done| == filesVerified)
      ensures r.Committed? ==> Sealed(disk.tree, directories, got.done, Receipted(manifestBytes, signature, receipt))
      ensures r.Committed? ==> directories == Needed(DeliveredPaths(got.done)) && |got.done| == filesVerified
      ensures disk.faults >= old(disk.faults)
      ensures r.Committed? <==> disk.faults == old(disk.faults) && got.active.None? && |got.done| == filesVerified
      ensures r.Unconfirmed? && RECEIPT in disk.tree.names ==> disk.faults >= old(disk.faults) + 2
    {
      LaidCounts(disk.tree, directories, files, active, got, final);
      hide Needed, PathsOf, Laid, Sealed, Complete, Receipted, RESERVED, Clear, NoReceipt, Vouched;
      Unvouched(disk.history, got.done, Receipted(manifestBytes, signature, receipt));
      r := NotLinked;
      if active.Some? || |files| != filesVerified {
        return;
      }
      var ok := Stage(receipt);
      Unvouched(disk.history, got.done, Receipted(manifestBytes, signature, receipt));
      if ok {
        r := Publish(receipt);
      }
    }

    /** The link itself, and what follows it whether or not it is confirmed. */
    method Publish(receipt: bytes) returns (r: Commitment)
      requires Unpublished() && NoReceipt(disk.tree) && forall d <- got.done :: d.entry.path !in RESERVED
      requires Sealed(disk.tree, directories, got.done,
                      Metas(manifestBytes, signature)[RECEIPT_TEMP := Inode(receipt, PRIVATE)])
      modifies disk
      ensures Vouched(disk.history, got.done, Receipted(manifestBytes, signature, receipt))
      ensures r.Committed? ==> Sealed(disk.tree, directories, got.done, Receipted(manifestBytes, signature, receipt))
      ensures disk.faults >= old(disk.faults) && (r.Committed? <==> disk.faults == old(disk.faults))
      ensures r.Unconfirmed? && RECEIPT in disk.tree.names ==> disk.faults >= old(disk.faults) + 2
    {
      ghost var staged := disk.tree;
      StagedHas(staged, directories, got.done, Metas(manifestBytes, signature), receipt);
      ghost var metas := Metas(manifestBytes, signature);
      ghost var all := Receipted(manifestBytes, signature, receipt);
      hide Sealed, Complete, RESERVED, Vouched;
      DistinctNames();
      Unvouched(disk.history, got.done, all);
      var ok := disk.HardLink(RECEIPT_TEMP, RECEIPT);
      LinkCompletes(staged, directories, got.done, metas, receipt);
      UnlinkSeals(staged, directories, got.done, metas, receipt);
      SealedComplete(Renamed(staged), directories, got.done, all);
      VouchedPlus(old(disk.history), disk.tree, got.done, all);
      if !ok {
        ghost var before := disk.history;
        var removed := disk.Remove(RECEIPT_TEMP);
        VouchedPlus(before, disk.tree, got.done, all);
        return NotLinked;
      }
      ok := Confirm(receipt, staged);
      r := if ok then Committed else Unconfirmed;
    }

    /** Dropping the temporary name; failing that, the receipt is withdrawn. */
    method Confirm(receipt: bytes, ghost staged: Tree) returns (ok: bool)
      requires Vouched(disk.history, got.done, Receipted(manifestBytes, signature, receipt))
      requires Complete(disk.tree, got.done, Receipted(manifestBytes, signature, receipt))
      requires Sealed(disk.tree.(names := disk.tree.names - {RECEIPT_TEMP}), directories, got.done,
                      Receipted(manifestBytes, signature, receipt))
      modifies disk
      ensures Vouched(disk.history, got.done, Receipted(manifestBytes, signature, receipt))
      ensures ok ==> Sealed(disk.tree, directories, got.done, Receipted(manifestBytes, signature, receipt))
      ensures disk.faults >= old(disk.faults)
      ensures RECEIPT_TEMP in old(disk.tree).names ==> (ok <==> disk.faults == old(disk.faults))
      ensures !ok && RECEIPT in disk.tree.names && RECEIPT_TEMP in old(disk.tree).names ==>
                disk.faults >= old(disk.faults) + 2
    {
      ghost var all := Receipted(manifestBytes, signature, receipt);
      SealedComplete(disk.tree.(names := disk.tree.names - {RECEIPT_TEMP}), directories, got.done, all);
      hide Sealed, Complete, Receipted, RESERVED, Vouched;
      DistinctNames();
      ok := disk.Remove(RECEIPT_TEMP);
      VouchedPlus(old(disk.history), disk.tree, got.done, all);
      if ok {
        ok := disk.Check();
      }
      if !ok {
        ghost var before := disk.history;
        var removed := disk.Remove(RECEIPT);
        VouchedPlus(before, disk.tree, got.done, all);
        before := disk.history;
        removed := disk.Remove(RECEIPT_TEMP);
        VouchedPlus(before, disk.tree, got.done, all);
      }
    }
  }

  /** No state in which the receipt exists lacks anything it vouches for. */
  ghost predicate Vouched(history: seq<Tree>, done: seq<Delivered>, metas: map<bytes, Inode>) {
    forall t <- history :: RECEIPT in t.names ==> Complete(t, done, metas)
  }

  lemma Unvouched(history: seq<Tree>, done: seq<Delivered>, metas: map<bytes, Inode>)
    requires forall t <- history :: NoReceipt(t)
    ensures Vouched(history, done, metas)
  {
    hide Complete;
  }

  lemma VouchedPlus(history: seq<Tree>, t: Tree, done: seq<Delivered>, metas: map<bytes, Inode>)
    requires Vouched(history, done, metas) && (RECEIPT in t.names ==> Complete(t, done, metas))
    ensures Vouched(history + [t], done, metas)
  {
    hide Complete;
  }

  lemma SealedComplete(t: Tree, directories: set<bytes>, done: seq<Delivered>, metas: map<bytes, Inode>)
    requires Sealed(t, directories, done, metas)
    ensures Complete(t, done, metas)
  {
  }

  /** Every name is a directory made, or a file's. */
  lemma NamesAre(t: Tree, directories: set<bytes>, files: seq<Stored>, active: Option<Writing>,
                 got: Unpacked, final: nat)
    requires Laid(t, directories, files, active, got, final)
    ensures t.names.Keys <= directories + PathsOf(files, active)
    ensures t.names.Keys !! RESERVED && directories !! PathsOf(files, active)
  {
  }

  /** The paths started so far, in order. */
  function Started(u: Unpacked): seq<bytes> {
    seq(|u.done|, i requires 0 <= i < |u.done| => u.done[i].entry.path)
    + if u.active.Some? then [u.active.value.entry.path] else []
  }

  lemma StartedPaths(t: Tree, directories: set<bytes>, files: seq<Stored>, active: Option<Writing>,
                     got: Unpacked, final: nat)
    requires Laid(t, directories, files, active, got, final)
    ensures PathsOf(files, active) == set p | p in Started(got)
  {
    hide Accounted;
    forall p ensures p in PathsOf(files, active) <==> p in Started(got) {
      if p in PathsOf(files, active) && !(active.Some? && p == active.value.entry.path) {
        var f :| f in files && f.entry.path == p;
        var i :| 0 <= i < |files| && files[i] == f;
        assert Started(got)[i] == p;
      }
      if p in Started(got) {
        var i :| 0 <= i < |Started(got)| && Started(got)[i] == p;
        if i < |files| {
          assert files[i] in files;
        }
      }
    }
  }

  /** Why a call fails, other than by a fault. */
  ghost predicate Refusable(u: Unpacked, e: Event, folded: bytes -> bytes) {
    match e
    case Begin(m, _, _) => !Installable(m, folded)
    case StartFile(entry) => Feed(u, e) == None || !Fresh(entry.path, set p | p in Started(u))
    case _ => Feed(u, e) == None
  }

  lemma LaidCounts(t: Tree, directories: set<bytes>, files: seq<Stored>, active: Option<Writing>,
                   got: Unpacked, final: nat)
    requires Laid(t, directories, files, active, got, final)
    ensures |got.done| == |files| && (got.active.Some? <==> active.Some?)
    ensures active.Some? ==>
              active.value.entry == got.active.value.entry && active.value.written == |got.active.value.data|
  {
  }

  function WithFile(t: Tree, name: bytes, raw: bytes, mode: nat): Tree {
    Tree(t.names[name := Leaf(|t.inodes|)], t.inodes + [Inode(raw, mode)])
  }

  function Metas(raw: bytes, signature: Option<bytes>): map<bytes, Inode> {
    var metas := map[MANIFEST_NAME := Inode(raw, MODE_PLAIN)];
    if signature.None? then metas else metas[SIGNATURE_NAME := Inode(signature.value, MODE_PLAIN)]
  }

  function Receipted(raw: bytes, signature: Option<bytes>, receipt: bytes): map<bytes, Inode> {
    Metas(raw, signature)[RECEIPT := Inode(receipt, PRIVATE)]
  }

  /** The records beside the payload, with their names and modes. */
  lemma RecordNames(raw: bytes, signature: Option<bytes>, receipt: bytes)
    ensures var records := Receipted(raw, signature, receipt);
            && Ascii("manifest.json") in records && records[Ascii("manifest.json")] == Inode(raw, 6 * 64 + 4 * 8 + 4)
            && Ascii(".bxdl-install.json") in records && records[Ascii(".bxdl-install.json")] == Inode(receipt, 6 * 64)
            && (signature.Some? <==> Ascii("manifest.sig") in records)
            && (signature.Some? ==> records[Ascii("manifest.sig")] == Inode(signature.value, 6 * 64 + 4 * 8 + 4))
            && |records| == if signature.Some? then 3 else 2
  {
    DistinctNames();
    hide Ascii;
  }

  function DeliveredPaths(ds: seq<Delivered>): set<bytes> {
    set d <- ds :: d.entry.path
  }

  /** Everything the receipt vouches for is there, with its final mode. */
  ghost predicate Complete(t: Tree, done: seq<Delivered>, metas: map<bytes, Inode>) {
    && (forall d <- done :: Holds(t, d.entry.path, d.data, d.entry.mode))
    && (forall p <- metas :: Holds(t, p, metas[p].data, metas[p].mode))
  }

  ghost predicate Unshared(t: Tree) {
    && (forall p <- t.names :: t.names[p].Leaf? ==> t.names[p].inode < |t.inodes|)
    && (forall p <- t.names, q <- t.names :: t.names[p].Leaf? && t.names[p] == t.names[q] ==> p == q)
  }

  /** Complete, with nothing else in the tree and no file under two names. */
  ghost predicate Sealed(t: Tree, directories: set<bytes>, done: seq<Delivered>, metas: map<bytes, Inode>) {
    && Complete(t, done, metas) && Unshared(t)
    && (forall p <- directories :: p in t.names && t.names[p].Folder?)
    && t.names.Keys == directories + DeliveredPaths(done) + metas.Keys
  }

  lemma DistinctNames()
    ensures RECEIPT != RECEIPT_TEMP && RECEIPT != MANIFEST_NAME && RECEIPT != SIGNATURE_NAME
    ensures RECEIPT_TEMP != MANIFEST_NAME && RECEIPT_TEMP != SIGNATURE_NAME && MANIFEST_NAME != SIGNATURE_NAME
  {
    assert |RECEIPT| == 18 && |RECEIPT_TEMP| == 25 && |MANIFEST_NAME| == 13 && |SIGNATURE_NAME| == 12;
  }

  lemma NeededPlus(paths: set<bytes>, p: bytes)
    ensures Needed(paths + {p}) == Needed(paths) + Ancestors(p)
  {
  }

  lemma NeededHas(paths: set<bytes>, p: bytes)
    requires p in paths
    ensures Ancestors(p) <= Needed(paths)
  {
  }

  lemma PathsDone(files: seq<Stored>, w: Writing)
    ensures PathsOf(files + [Stored(w.entry, w.inode)], None) == PathsOf(files, Some(w))
  {
    var all := files + [Stored(w.entry, w.inode)];
    assert all[|files|] in all;
  }

  lemma FileAt(t: Tree, directories: set<bytes>, files: seq<Stored>, got: Unpacked, i: nat)
    requires Laid(t, directories, files, None, got, i) && i < |files|
    ensures files[i].inode < |t.inodes|
  {
  }

  lemma ModeSet(t: Tree, directories: set<bytes>, files: seq<Stored>, got: Unpacked, i: nat)
    requires Laid(t, directories, files, None, got, i) && i < |files| && files[i].inode < |t.inodes|
    ensures Laid(t.(inodes := t.inodes[files[i].inode := Inode(t.inodes[files[i].inode].data, files[i].entry.mode)]),
                 directories, files, None, got, i + 1)
  {
    hide Accounted;
    AccountedAgain(t, t.(inodes := t.inodes[files[i].inode := Inode(t.inodes[files[i].inode].data, files[i].entry.mode)]),
                   directories, files);
  }

  lemma AccountedAgain(t: Tree, u: Tree, directories: set<bytes>, files: seq<Stored>)
    requires Accounted(t, directories, files, None) && u.names == t.names
    ensures Accounted(u, directories, files, None)
  {
  }

  lemma LaidHolds(t: Tree, files: seq<Stored>, done: seq<Delivered>)
    requires FilesLaid(t, files, done, |files|)
    ensures Complete(t, done, map[])
    ensures PathsOf(files, None) == DeliveredPaths(done)
  {
    assert forall i :: 0 <= i < |files| ==> files[i] in files && done[i] in done && files[i].entry == done[i].entry;
  }

  lemma LaidUnshared(t: Tree, directories: set<bytes>, files: seq<Stored>, done: seq<Delivered>)
    requires FilesLaid(t, files, done, |files|) && Accounted(t, directories, files, None)
    ensures Unshared(t)
  {
    hide RESERVED;
    forall p | p in t.names && t.names[p].Leaf?
      ensures exists i :: 0 <= i < |files| && files[i].entry.path == p && t.names[p].inode == files[i].inode
    {
      var f :| f in files && f.entry.path == p;
    }
  }

  lemma LaidSealed(t: Tree, directories: set<bytes>, files: seq<Stored>, got: Unpacked)
    requires Laid(t, directories, files, None, got, |files|)
    ensures Sealed(t, directories, got.done, map[]) && t.names.Keys !! RESERVED && NoReceipt(t)
    ensures forall d <- got.done :: d.entry.path !in RESERVED
    ensures DeliveredPaths(got.done) == PathsOf(files, None)
  {
    LaidHolds(t, files, got.done);
    LaidUnshared(t, directories, files, got.done);
    InReserved();
    hide Complete, Unshared, RESERVED, FilesLaid;
    assert forall f <- files :: f.entry.path in t.names by {
      FilesNamed(t, files, got.done);
    }
  }

  lemma FilesNamed(t: Tree, files: seq<Stored>, done: seq<Delivered>)
    requires FilesLaid(t, files, done, |files|)
    ensures forall f <- files :: f.entry.path in t.names
  {
  }

  lemma SealedPlus(t: Tree, directories: set<bytes>, done: seq<Delivered>, metas: map<bytes, Inode>,
                   name: bytes, raw: bytes, mode: nat)
    requires Sealed(t, directories, done, metas) && name !in t.names
    ensures Sealed(WithFile(t, name, raw, mode), directories, done, metas[name := Inode(raw, mode)])
  {
    CompletePlus(t, done, metas, name, raw, mode);
    UnsharedPlus(t, name, raw, mode);
    hide Complete, Unshared;
  }

  lemma CompletePlus(t: Tree, done: seq<Delivered>, metas: map<bytes, Inode>, name: bytes, raw: bytes, mode: nat)
    requires Complete(t, done, metas) && name !in t.names
    ensures Complete(WithFile(t, name, raw, mode), done, metas[name := Inode(raw, mode)])
  {
    var u, all := WithFile(t, name, raw, mode), metas[name := Inode(raw, mode)];
    forall d | d in done ensures Holds(u, d.entry.path, d.data, d.entry.mode) {
      assert Holds(t, d.entry.path, d.data, d.entry.mode);
    }
    forall p | p in all ensures Holds(u, p, all[p].data, all[p].mode) {
      assert p != name ==> Holds(t, p, metas[p].data, metas[p].mode);
    }
  }

  lemma UnsharedPlus(t: Tree, name: bytes, raw: bytes, mode: nat)
    requires Unshared(t) && name !in t.names
    ensures Unshared(WithFile(t, name, raw, mode))
  {
    var u := WithFile(t, name, raw, mode);
    assert forall p <- u.names :: p == name || (p in t.names && u.names[p] == t.names[p]);
  }

  /** The link makes the receipt appear over a complete tree. */
  lemma LinkCompletes(t: Tree, directories: set<bytes>, done: seq<Delivered>, metas: map<bytes, Inode>, receipt: bytes)
    requires Sealed(t, directories, done, metas[RECEIPT_TEMP := Inode(receipt, PRIVATE)]) && RECEIPT !in t.names
    requires RECEIPT_TEMP !in metas
    ensures Complete(t.(names := t.names[RECEIPT := t.names[RECEIPT_TEMP]]), done,
                     metas[RECEIPT := Inode(receipt, PRIVATE)])
  {
    DistinctNames();
    var u := t.(names := t.names[RECEIPT := t.names[RECEIPT_TEMP]]);
    var staged, all := metas[RECEIPT_TEMP := Inode(receipt, PRIVATE)], metas[RECEIPT := Inode(receipt, PRIVATE)];
    assert Holds(t, RECEIPT_TEMP, receipt, PRIVATE) by {
      assert RECEIPT_TEMP in staged;
    }
    forall d | d in done ensures Holds(u, d.entry.path, d.data, d.entry.mode) {
      assert Holds(t, d.entry.path, d.data, d.entry.mode);
    }
    forall p | p in all ensures Holds(u, p, all[p].data, all[p].mode) {
      assert p != RECEIPT ==> p in staged && Holds(t, p, metas[p].data, metas[p].mode);
    }
  }

  function Renamed(t: Tree): Tree
    requires RECEIPT_TEMP in t.names
  {
    t.(names := t.names[RECEIPT := t.names[RECEIPT_TEMP]] - {RECEIPT_TEMP})
  }

  lemma RenamedUnshared(t: Tree)
    requires Unshared(t) && RECEIPT_TEMP in t.names && t.names[RECEIPT_TEMP].Leaf? && RECEIPT !in t.names
    ensures Unshared(Renamed(t))
  {
  }

  lemma RenamedHolds(t: Tree, p: bytes, data: bytes, mode: nat)
    requires Holds(t, p, data, mode) && RECEIPT_TEMP in t.names && RECEIPT !in t.names && p != RECEIPT_TEMP
    ensures Holds(Renamed(t), p, data, mode)
  {
  }

  lemma StagedHas(t: Tree, directories: set<bytes>, done: seq<Delivered>, metas: map<bytes, Inode>, receipt: bytes)
    requires Sealed(t, directories, done, metas[RECEIPT_TEMP := Inode(receipt, PRIVATE)])
    ensures RECEIPT_TEMP in t.names
  {
  }

  lemma UnlinkSeals(t: Tree, directories: set<bytes>, done: seq<Delivered>, metas: map<bytes, Inode>, receipt: bytes)
    requires Sealed(t, directories, done, metas[RECEIPT_TEMP := Inode(receipt, PRIVATE)]) && RECEIPT !in t.names
    requires RECEIPT_TEMP !in metas && forall d <- done :: d.entry.path !in RESERVED
    ensures RECEIPT_TEMP in t.names
    ensures Sealed(Renamed(t), directories, done, metas[RECEIPT := Inode(receipt, PRIVATE)])
  {
    DistinctNames();
    InReserved();
    var all := metas[RECEIPT_TEMP := Inode(receipt, PRIVATE)];
    assert RECEIPT_TEMP in all && Holds(t, RECEIPT_TEMP, receipt, PRIVATE);
    RenamedUnshared(t);
    hide RESERVED, Unshared, Holds, Renamed;
    forall d | d in done ensures Holds(Renamed(t), d.entry.path, d.data, d.entry.mode) {
      RenamedHolds(t, d.entry.path, d.data, d.entry.mode);
    }
    forall p | p in metas ensures Holds(Renamed(t), p, metas[p].data, metas[p].mode) {
      assert p in all;
      RenamedHolds(t, p, metas[p].data, metas[p].mode);
    }
    ReceiptHolds(t, receipt);
    TempIsFile(t, receipt);
  }

  lemma ReceiptHolds(t: Tree, receipt: bytes)
    requires Holds(t, RECEIPT_TEMP, receipt, PRIVATE) && RECEIPT !in t.names
    ensures Holds(Renamed(t), RECEIPT, receipt, PRIVATE)
  {
    DistinctNames();
  }

  lemma TempIsFile(t: Tree, receipt: bytes)
    requires Holds(t, RECEIPT_TEMP, receipt, PRIVATE)
    ensures RECEIPT_TEMP in t.names && !t.names[RECEIPT_TEMP].Folder?
  {
  }

  lemma FolderAdded(t: Tree, directories: set<bytes>, files: seq<Stored>, active: Option<Writing>,
                    got: Unpacked, final: nat, p: bytes)
    requires Laid(t, directories, files, active, got, final) && p !in t.names && p !in RESERVED
    ensures Laid(t.(names := t.names[p := Folder]), directories + {p}, files, active, got, final)
  {
  }

  lemma FileAdded(t: Tree, directories: set<bytes>, files: seq<Stored>, got: Unpacked, final: nat, entry: FileEntry)
    requires Laid(t, directories, files, None, got, final) && entry.path !in t.names && entry.path !in RESERVED
    ensures var inode := |t.inodes|;
            Laid(Tree(t.names[entry.path := Leaf(inode)], t.inodes + [Inode([], PRIVATE)]), directories, files,
                 Some(Writing(entry, inode, 0)), Unpacked(got.done, Some(Delivered(entry, []))), final)
    ensures got.active.None?
    ensures NoReceipt(Tree(t.names[entry.path := Leaf(|t.inodes|)], t.inodes + [Inode([], PRIVATE)]))
  {
    hide RESERVED;
    assert RECEIPT in RESERVED by {
      InReserved();
    }
  }

  lemma StillNoReceipt(before: Tree, after: Tree, p: bytes)
    requires p !in RESERVED && after.names.Keys <= before.names.Keys + {p}
    ensures NoReceipt(before) ==> NoReceipt(after)
  {
    InReserved();
    hide RESERVED;
  }

  lemma InReserved()
    ensures RECEIPT in RESERVED && RECEIPT_TEMP in RESERVED && MANIFEST_NAME in RESERVED && SIGNATURE_NAME in RESERVED
  {
  }

  lemma LaidUnpublished(t: Tree, directories: set<bytes>, files: seq<Stored>, active: Option<Writing>,
                        got: Unpacked, final: nat)
    requires Laid(t, directories, files, active, got, final)
    ensures NoReceipt(t)
  {
    InReserved();
  }

  lemma ChunkAdded(t: Tree, directories: set<bytes>, files: seq<Stored>, w: Writing, got: Unpacked,
                   final: nat, data: bytes)
    requires Laid(t, directories, files, Some(w), got, final) && |data| <= w.entry.size - w.written
    ensures Laid(t.(inodes := t.inodes[w.inode := Appended(t.inodes[w.inode], data)]), directories, files,
                 Some(Writing(w.entry, w.inode, w.written + |data|)),
                 Unpacked(got.done, Some(Delivered(w.entry, got.active.value.data + data))), final)
  {
  }

  lemma FilesDone(t: Tree, files: seq<Stored>, w: Writing, got: Unpacked, final: nat)
    requires FilesLaid(t, files, got.done, final) && ActiveLaid(t, files, Some(w), got.active)
    requires w.written == w.entry.size
    ensures FilesLaid(t, files + [Stored(w.entry, w.inode)], got.done + [got.active.value], final)
  {
  }

  lemma FileDone(t: Tree, directories: set<bytes>, files: seq<Stored>, w: Writing, got: Unpacked, final: nat)
    requires Laid(t, directories, files, Some(w), got, final) && w.written == w.entry.size
    ensures got.active.Some? && |got.active.value.data| == got.active.value.entry.size
    ensures Laid(t, directories, files + [Stored(w.entry, w.inode)], None,
                 Unpacked(got.done + [got.active.value], None), final)
  {
    var all := files + [Stored(w.entry, w.inode)];
    var done := got.done + [got.active.value];
    FilesDone(t, files, w, got, final);
    hide FilesLaid, RESERVED;
    assert all[|files|] in all;
    assert forall f <- files :: f in all;
  }
}
