/** What acceptance by the package verifier means, for arbitrary archive bytes: the
    sink calls are complete files followed by at most one that breaks off, and an
    accepted archive delivers its inventory, each entry once, with the size and hash
    that the manifest records. */
module Soundness {
  import opened Prelude
  import opened Paths
  import opened Package
  import opened Inventory
  import opened UstarHeader
  import opened Printer
  import opened Verifier
  import Aliases

  /** A payload file handed to the sink in full. */
  datatype Delivered = Delivered(entry: FileEntry, data: bytes)

  function FileEvents(d: Delivered): seq<Event> {
    [StartFile(d.entry)] + Chunks(d.data) + [FinishFile]
  }

  function AllEvents(ds: seq<Delivered>): seq<Event> {
    if ds == [] then [] else FileEvents(ds[0]) + AllEvents(ds[1..])
  }

  function Entries(ds: seq<Delivered>): (r: seq<FileEntry>)
    ensures |r| == |ds|
  {
    seq(|ds|, i requires 0 <= i < |ds| => ds[i].entry)
  }

  /** The delivered bytes are the inventoried ones. */
  predicate Genuine(env: Env, d: Delivered) {
    |d.data| == d.entry.size && env.sha256(d.data) == d.entry.sha256
  }

  /** A file announced but never finished: a start and some of its chunks. */
  ghost predicate Unfinished(events: seq<Event>) {
    events == [] || exists e, data :: events == [StartFile(e)] + Chunks(data)
  }

  ghost predicate Keyed(inventory: map<bytes, FileEntry>) {
    forall p <- inventory :: inventory[p].path == p
  }

  /** Each inventory entry occurs exactly once. */
  ghost predicate Once(ds: seq<Delivered>, inventory: map<bytes, FileEntry>) {
    && (forall i, j :: 0 <= i < j < |ds| ==> ds[i].entry.path != ds[j].entry.path)
    && (forall d <- ds :: d.entry.path in inventory && inventory[d.entry.path] == d.entry)
    && (forall p <- inventory :: exists d :: d in ds && d.entry.path == p)
  }

  lemma OncePlus(d: Delivered, ds: seq<Delivered>, inventory: map<bytes, FileEntry>)
    requires d.entry.path in inventory && inventory[d.entry.path] == d.entry
    requires Once(ds, inventory - {d.entry.path})
    ensures Once([d] + ds, inventory)
  {
    var all := [d] + ds;
    forall i, j | 0 <= i < j < |all| ensures all[i].entry.path != all[j].entry.path {
      assert all[j] == ds[j - 1];
      assert ds[j - 1] in ds;
    }
    forall p | p in inventory ensures exists x :: x in all && x.entry.path == p {
      if p == d.entry.path {
        assert d in all;
      } else {
        assert p in inventory - {d.entry.path};
        var x :| x in ds && x.entry.path == p;
        assert x in all;
      }
    }
  }

  lemma FinishedFile(env: Env, rest: bytes, e: FileEntry) returns (d: Delivered)
    requires FileRun(env, rest, e).result.Ok?
    ensures d.entry == e && Genuine(env, d) && FileRun(env, rest, e).events == FileEvents(d)
  {
    d := Delivered(e, rest[..e.size]);
  }

  lemma UnfinishedFile(env: Env, rest: bytes, e: FileEntry)
    requires FileRun(env, rest, e).result.Err?
    ensures Unfinished(FileRun(env, rest, e).events)
  {
  }

  /** The calls so described, for a payload loop that starts at `at`. */
  ghost predicate Shaped(env: Env, run: Run<Payload>, inventory: map<bytes, FileEntry>, at: Payload,
                         ds: seq<Delivered>, broken: seq<Event>) {
    && run.events == AllEvents(ds) + broken && Unfinished(broken)
    && (forall d <- ds :: Genuine(env, d))
    && (run.result.Ok? ==>
          broken == [] && Once(ds, inventory)
          && run.result.value.files == at.files + |ds|
          && run.result.value.total == at.total + TotalSize(Entries(ds)))
  }

  lemma ShapedPlus(env: Env, tail: Run<Payload>, inventory: map<bytes, FileEntry>, at: Payload,
                   rest: bytes, d: Delivered, ds: seq<Delivered>, broken: seq<Event>)
    requires d.entry.path in inventory && inventory[d.entry.path] == d.entry && Genuine(env, d)
    requires Shaped(env, tail, inventory - {d.entry.path},
                    Payload(at.files + 1, at.total + d.entry.size, rest), ds, broken)
    ensures Shaped(env, Run(FileEvents(d) + tail.events, tail.result), inventory, at, [d] + ds, broken)
  {
    assert ([d] + ds)[1..] == ds;
    assert FileEvents(d) + (AllEvents(ds) + broken) == FileEvents(d) + AllEvents(ds) + broken;
    if tail.result.Ok? {
      OncePlus(d, ds, inventory);
      TotalPlus(d, ds);
    }
  }

  lemma NoFiles(env: Env, next: Option<Header>, inventory: map<bytes, FileEntry>, at: Payload)
    requires next.None? || Expected(env, next.value, inventory).Err?
    ensures Shaped(env, FilesRun(env, next, inventory, at), inventory, at, [], [])
  {
    hide Expected;
  }

  lemma ShapedBroken(env: Env, inventory: map<bytes, FileEntry>, at: Payload, file: Run<bytes>)
    requires file.result.Err? && Unfinished(file.events)
    ensures Shaped(env, Run(file.events, Err(file.result.error)), inventory, at, [], file.events)
  {
    assert AllEvents([]) + file.events == file.events;
  }

  /** One turn of the payload loop, by the outcome of its file. */
  lemma FilesTurn(env: Env, h: Header, inventory: map<bytes, FileEntry>, at: Payload)
    requires Expected(env, h, inventory).Ok?
    ensures var file := FileRun(env, at.rest, Expected(env, h, inventory).value);
            FilesRun(env, Some(h), inventory, at) ==
              if file.result.Err? then Run(file.events, Err(file.result.error))
              else
                var tail := AfterFile(env, inventory - {h.name},
                                      Payload(at.files + 1, at.total + h.size, file.result.value));
                Run(file.events + tail.events, tail.result)
  {
    hide Expected, FileRun, AfterFile;
  }

  lemma ExpectedEntry(env: Env, h: Header, inventory: map<bytes, FileEntry>)
    requires Keyed(inventory) && Expected(env, h, inventory).Ok?
    ensures var e := Expected(env, h, inventory).value;
            h.name in inventory && inventory[h.name] == e && e.path == h.name && e.size == h.size
  {
  }

  /** Whatever the bytes and the outcome, the payload calls are complete files
      with genuine contents, then at most one that breaks off; and if the loop
      ends well, they are the inventory, each entry once. */
  lemma {:induction false} FilesShape(env: Env, next: Option<Header>, inventory: map<bytes, FileEntry>,
                                      at: Payload) returns (ds: seq<Delivered>, broken: seq<Event>)
    requires Keyed(inventory)
    ensures Shaped(env, FilesRun(env, next, inventory, at), inventory, at, ds, broken)
    decreases |at.rest|, 1
  {
    ds, broken := [], [];
    if next.None? || Expected(env, next.value, inventory).Err? {
      NoFiles(env, next, inventory, at);
    } else {
      var h := next.value;
      var e := Expected(env, h, inventory).value;
      ExpectedEntry(env, h, inventory);
      FilesTurn(env, h, inventory, at);
      var file := FileRun(env, at.rest, e);
      hide Expected, FileRun, NextHeader, FileEvents, Genuine, Once, FilesRun, AfterFile, Shaped;
      if file.result.Err? {
        UnfinishedFile(env, at.rest, e);
        ShapedBroken(env, inventory, at, file);
        broken := file.events;
      } else {
        var d := FinishedFile(env, at.rest, e);
        var after := Payload(at.files + 1, at.total + h.size, file.result.value);
        ds, broken := AfterShape(env, inventory - {h.name}, after);
        ShapedPlus(env, AfterFile(env, inventory - {h.name}, after), inventory, at, after.rest, d, ds, broken);
        ds := [d] + ds;
      }
    }
  }

  lemma {:induction false} AfterShape(env: Env, inventory: map<bytes, FileEntry>, at: Payload)
    returns (ds: seq<Delivered>, broken: seq<Event>)
    requires Keyed(inventory)
    ensures Shaped(env, AfterFile(env, inventory, at), inventory, at, ds, broken)
    decreases |at.rest|, 0
  {
    ds, broken := [], [];
    match NextHeader(at.rest) {
      case Err(_) =>
      case Ok((next, rest)) => ds, broken := FilesShape(env, next, inventory, at.(rest := rest));
    }
  }

  lemma TotalPlus(d: Delivered, ds: seq<Delivered>)
    ensures TotalSize(Entries([d] + ds)) == d.entry.size + TotalSize(Entries(ds))
  {
    assert Sizes(Entries([d] + ds)) == [d.entry.size] + Sizes(Entries(ds));
    SumAppend([d.entry.size], Sizes(Entries(ds)));
    assert Sum([d.entry.size]) == d.entry.size by {
      assert [d.entry.size][..0] == [];
    }
  }

  // ------------------------------------------------------------------ chunks

  function ChunkData(events: seq<Event>): bytes {
    if events == [] then []
    else (if events[0].WriteChunk? then events[0].data else []) + ChunkData(events[1..])
  }

  /** The chunks of a file are its bytes in order, none empty or over-long. */
  lemma {:induction false} ChunksConcatenate(data: bytes)
    ensures ChunkData(Chunks(data)) == data
    ensures forall e <- Chunks(data) :: e.WriteChunk? && 0 < |e.data| <= 32 * 1024
    decreases |data|
  {
    if data != [] {
      var n := Min(|data|, CHUNK);
      ChunksConcatenate(data[n..]);
      assert Chunks(data)[1..] == Chunks(data[n..]);
      assert data == data[..n] + data[n..];
    }
  }

  // --------------------------------------------------------------- the index

  lemma {:induction false} IndexKeys(files: seq<FileEntry>)
    requires DistinctPaths(files)
    ensures Indexes(Index(files), files)
  {
    if files != [] {
      var init, last := files[..|files| - 1], files[|files| - 1];
      IndexKeys(init);
      assert files == init + [last];
      forall j | 0 <= j < |init| ensures init[j].path != last.path {
        assert files[j] == init[j];
      }
      assert last.path !in Index(init);
    }
  }

  lemma {:induction false} SameBag(a: seq<FileEntry>, b: seq<FileEntry>)
    requires DistinctPaths(a) && DistinctPaths(b)
    requires forall x :: x in a <==> x in b
    ensures multiset(a) == multiset(b)
  {
    forall x ensures multiset(a)[x] == multiset(b)[x] {
      CountOnce(a, x);
      CountOnce(b, x);
    }
  }

  lemma {:induction false} CountOnce(s: seq<FileEntry>, x: FileEntry)
    requires DistinctPaths(s)
    ensures multiset(s)[x] == if x in s then 1 else 0
  {
    if s != [] {
      var init, last := s[..|s| - 1], s[|s| - 1];
      assert s == init + [last];
      CountOnce(init, x);
      assert last !in init;
    }
  }

  lemma OnceIsAll(ds: seq<Delivered>, files: seq<FileEntry>)
    requires DistinctPaths(files) && Once(ds, Index(files))
    ensures multiset(Entries(ds)) == multiset(files)
  {
    IndexKeys(files);
    var es := Entries(ds);
    assert forall i :: 0 <= i < |ds| ==> es[i] == ds[i].entry && ds[i] in ds;
    forall x ensures x in es <==> x in files {
      if x in files {
        var d :| d in ds && d.entry.path == x.path;
        var i :| 0 <= i < |ds| && ds[i] == d;
        assert es[i] == x;
      }
    }
    SameBag(es, files);
  }

  // ------------------------------------------------------------- the theorem

  ghost predicate TrustOk(env: Env, v: Verified, key: Option<bytes>, allowUnsigned: bool) {
    match v.front.signature
    case None => allowUnsigned && key.None?
    case Some(text) =>
      key.Some? && env.signatureOf(text).Some?
      && env.signed(key.value, v.front.raw, env.signatureOf(text).value)
  }

  lemma FrontSound(env: Env, rest: bytes, key: Option<bytes>, allowUnsigned: bool)
    requires FrontRun(env, rest, key, allowUnsigned).Ok?
    ensures var front := FrontRun(env, rest, key, allowUnsigned).value;
            && env.decode(front.raw) == Some(front.manifest)
            && Verdict(front.manifest, true, env.lower).Ok?
            && TrustOk(env, Verified(front, Payload(0, 0, [])), key, allowUnsigned)
  {
    hide NextHeader, TakeSmall, Verdict;
  }

  /** Acceptance of arbitrary bytes means: the manifest is well formed and, if a
      key is given, signed by it; the sink got the manifest and then every
      inventoried file exactly once, with its inventoried size and hash; the
      counts are those of the inventory; and only zeros follow the end. */
  lemma VerifierSound(env: Env, archive: bytes, key: Option<bytes>, allowUnsigned: bool)
    returns (ds: seq<Delivered>)
    requires Accepts(env, archive, key, allowUnsigned)
    ensures var run := Transcript(env, archive, key, allowUnsigned);
            var v := run.result.value;
            && run.events == [Begin(v.front.manifest, v.front.raw, v.front.signature)] + AllEvents(ds)
            && ManifestOk(v.front.manifest, env.lower)
            && env.decode(v.front.raw) == Some(v.front.manifest)
            && TrustOk(env, v, key, allowUnsigned)
            && (forall d <- ds :: Genuine(env, d))
            && multiset(Entries(ds)) == multiset(v.front.manifest.files)
            && v.at.files == |v.front.manifest.files| == |ds|
            && v.at.total == TotalSize(v.front.manifest.files)
            && AllZero(v.at.rest)
  {
    var z := env.gunzip(archive);
    FrontSound(env, Visible(z.plain), key, allowUnsigned);
    var front := FrontRun(env, Visible(z.plain), key, allowUnsigned).value;
    VerdictExact(front.manifest, env.lower);
    var files := front.manifest.files;
    IndexKeys(files);
    var broken;
    ds, broken := FilesShape(env, front.next, Index(files), Payload(0, 0, front.rest));
    OnceIsAll(ds, files);
    assert AllEvents(ds) + [] == AllEvents(ds);
    assert |multiset(Entries(ds))| == |multiset(files)|;
    TotalBag(Entries(ds), files);
  }

  /** The verdict on an inventory does not depend on the order of its files. */
  lemma InventoryOrder(m: Manifest, n: Manifest, lower: bytes -> bytes)
    requires n == m.(files := n.files) && multiset(m.files) == multiset(n.files)
    ensures ManifestOk(m, lower) <==> ManifestOk(n, lower)
  {
    if ManifestOk(m, lower) {
      InventoryAgain(m, n, lower);
    }
    if ManifestOk(n, lower) {
      InventoryAgain(n, m, lower);
    }
  }

  lemma InventoryAgain(m: Manifest, n: Manifest, lower: bytes -> bytes)
    requires n == m.(files := n.files) && multiset(m.files) == multiset(n.files) && ManifestOk(m, lower)
    ensures ManifestOk(n, lower)
  {
    Aliases.SameElements(m.files, n.files);
    ListAgain(m.files, n.files, EntryCheck(lower));
    RequiredAgain(m, n);
    assert HeaderOk(n);
    hide Ancestors, ListOk, HeaderOk, AllPresent, LaunchersOk, IdentitiesMatch;
  }

  lemma ListAgain(a: seq<FileEntry>, b: seq<FileEntry>, ok: FileEntry -> bool)
    requires multiset(a) == multiset(b) && ListOk(a, ok)
    ensures ListOk(b, ok) && |a| == |b|
  {
    hide DistinctPaths, TotalSize;
    Aliases.SameElements(a, b);
    Aliases.DistinctOrder(a, b);
    TotalBag(a, b);
    assert |multiset(a)| == |a| && |multiset(b)| == |b|;
    forall i | 0 <= i < |b| ensures ok(b[i]) {
      assert b[i] in b;
    }
  }

  lemma RequiredAgain(m: Manifest, n: Manifest)
    requires n == m.(files := n.files) && forall f :: f in m.files <==> f in n.files
    requires AllPresent(m.files) && LaunchersOk(m.files) && IdentitiesMatch(m)
    ensures AllPresent(n.files) && LaunchersOk(n.files) && IdentitiesMatch(n)
  {
    hide CLI, JAR, JAVA, REQUIRED;
    forall k | 0 <= k < |REQUIRED| ensures Present(n.files, REQUIRED[k]) {
      assert Present(m.files, REQUIRED[k]);
    }
  }

  lemma TotalRemove(s: seq<FileEntry>, k: nat)
    requires k < |s|
    ensures TotalSize(s) == s[k].size + TotalSize(s[..k] + s[k + 1..])
  {
    var a, b := Sizes(s[..k]), Sizes(s[k + 1..]);
    assert Sizes(s) == a + [s[k].size] + b;
    assert Sizes(s[..k] + s[k + 1..]) == a + b;
    SumAppend(a + [s[k].size], b);
    assert (a + [s[k].size])[..|a|] == a;
    SumAppend(a, b);
  }

  lemma RemoveBag(s: seq<FileEntry>, k: nat)
    requires k < |s|
    ensures multiset(s[..k] + s[k + 1..]) == multiset(s) - multiset{s[k]}
  {
    assert s == s[..k] + [s[k]] + s[k + 1..];
  }

  /** Sizes add up the same in any order. */
  lemma {:induction false} TotalBag(a: seq<FileEntry>, b: seq<FileEntry>)
    requires multiset(a) == multiset(b)
    ensures TotalSize(a) == TotalSize(b)
    decreases |a|
  {
    hide TotalSize;
    if a == [] {
      assert |multiset(b)| == 0;
    } else {
      var x := a[0];
      assert x in multiset(b);
      var k :| 0 <= k < |b| && b[k] == x;
      RemoveBag(a, 0);
      RemoveBag(b, k);
      TotalBag(a[..0] + a[1..], b[..k] + b[k + 1..]);
      TotalRemove(a, 0);
      TotalRemove(b, k);
    }
  }
}
