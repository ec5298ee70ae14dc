/** `install_owned` (src/install.rs): verify, unpack and commit, as one whole. The
    verifier's transcript drives the installer; what the transcript can contain and
    what the installer makes of it meet here, in one statement about every state
    that a crash may leave and about the result of a success. */
module Install {
  import opened Prelude
  import opened Paths
  import opened Package
  import opened Inventory
  import opened Aliases
  import opened UstarHeader
  import opened Printer
  import opened Verifier
  import opened Soundness
  import opened Installer

  // ----------------------------------------------- what the installer is asked

  /** A call that may come after `begin`. */
  predicate Callable(e: Event) {
    !e.Begin? && (e.StartFile? ==> Clear(e.entry.path))
  }

  ghost predicate AllCallable(events: seq<Event>) {
    forall e <- events :: Callable(e)
  }

  lemma ReservedNames(p: bytes)
    requires p in RESERVED
    ensures SLASH !in p && p !in ROOTS
  {
    assert forall k :: 0 <= k < |ROOTS| ==> |ROOTS[k]| <= 8;
    assert |RECEIPT| == 18 && |RECEIPT_TEMP| == 25 && |MANIFEST_NAME| == 13 && |SIGNATURE_NAME| == 12;
    PlainText(".bxdl-install.json");
    PlainText(".bxdl-install-receipt.tmp");
    PlainText("manifest.json");
    PlainText("manifest.sig");
  }

  lemma PlainText(text: string)
    requires forall i :: 0 <= i < |text| ==> text[i] as int < 0x80 && text[i] != '/'
    ensures SLASH !in Ascii(text)
  {
  }

  lemma ValidPathClear(p: bytes, lower: bytes -> bytes)
    requires ValidPath(p, lower)
    ensures Clear(p)
  {
    ValidPathShape(p, lower);
    var k := Find(p, SLASH);
    hide RESERVED, ValidPath, Split;
    forall a | a in Ancestors(p) ensures a !in RESERVED {
      var i :| 0 <= i < |p| && p[i] == SLASH && p[..i] == a;
      assert i == k || a[k] == SLASH;
      NotReserved(a);
    }
    NotReserved(p);
  }

  lemma NotReserved(p: bytes)
    requires SLASH in p || p in ROOTS
    ensures p !in RESERVED
  {
    hide RESERVED, ROOTS;
    if p in RESERVED {
      ReservedNames(p);
    }
  }

  lemma ChunksCallable(data: bytes)
    ensures AllCallable(Chunks(data))
  {
    ChunksConcatenate(data);
  }

  lemma FileCallable(env: Env, rest: bytes, e: FileEntry)
    requires Clear(e.path)
    ensures AllCallable(FileRun(env, rest, e).events)
  {
    hide Clear, Chunks, SkipPadding;
    if |rest| < e.size {
      ChunksCallable(rest[..WholeChunks(|rest|)]);
    } else {
      ChunksCallable(rest[..e.size]);
    }
  }

  lemma {:induction false} FilesCallable(env: Env, next: Option<Header>, inventory: map<bytes, FileEntry>, at: Payload)
    requires Keyed(inventory) && forall p <- inventory :: Clear(p)
    ensures AllCallable(FilesRun(env, next, inventory, at).events)
    decreases |at.rest|, 1
  {
    if next.Some? && Expected(env, next.value, inventory).Ok? {
      var h := next.value;
      FilesTurn(env, h, inventory, at);
      ExpectedEntry(env, h, inventory);
      var e := Expected(env, h, inventory).value;
      FileCallable(env, at.rest, e);
      var file := FileRun(env, at.rest, e);
      hide FilesRun, AfterFile, Expected, FileRun, Clear;
      if file.result.Ok? {
        AfterCallable(env, inventory - {h.name}, Payload(at.files + 1, at.total + h.size, file.result.value));
      }
    }
  }

  lemma {:induction false} AfterCallable(env: Env, inventory: map<bytes, FileEntry>, at: Payload)
    requires Keyed(inventory) && forall p <- inventory :: Clear(p)
    ensures AllCallable(AfterFile(env, inventory, at).events)
    decreases |at.rest|, 0
  {
    hide Clear, FilesRun, Callable;
    match NextHeader(at.rest) {
      case Err(_) =>
      case Ok((next, rest)) => FilesCallable(env, next, inventory, at.(rest := rest));
    }
  }

  lemma IndexClear(m: Manifest, lower: bytes -> bytes)
    requires ManifestOk(m, lower)
    ensures Keyed(Index(m.files)) && forall p <- Index(m.files) :: Clear(p)
  {
    IndexKeys(m.files);
    var index := Index(m.files);
    hide Index, HeaderOk, NoConflict, Clear, AllPresent, LaunchersOk, IdentitiesMatch;
    forall p | p in index ensures Clear(p) {
      var i :| 0 <= i < |m.files| && m.files[i] == index[p];
      assert EntryCheck(lower)(m.files[i]);
      ValidPathClear(p, lower);
    }
  }

  /** The verifier opens with `begin` and then makes only such calls. */
  lemma TranscriptCallable(env: Env, archive: bytes, key: Option<bytes>, allowUnsigned: bool)
    ensures var events := Transcript(env, archive, key, allowUnsigned).events;
            events != [] ==> events[0].Begin? && AllCallable(events[1..])
  {
    var run := Transcript(env, archive, key, allowUnsigned);
    var plain := Visible(env.gunzip(archive).plain);
    if run.events != [] {
      FrontSound(env, plain, key, allowUnsigned);
      var front := FrontRun(env, plain, key, allowUnsigned).value;
      VerdictExact(front.manifest, env.lower);
      IndexClear(front.manifest, env.lower);
      FilesCallable(env, front.next, Index(front.manifest.files), Payload(0, 0, front.rest));
      hide FrontRun, FilesRun, Index, ManifestOk, Verdict, Callable;
      assert run.events[1..] == FilesRun(env, front.next, Index(front.manifest.files), Payload(0, 0, front.rest)).events;
    }
  }

  // ------------------------------------------------------------- the whole

  /** These are the inventoried files, each with its recorded size and hash. */
  ghost predicate Contents(env: Env, m: Manifest, ds: seq<Delivered>) {
    (forall d <- ds :: Genuine(env, d)) && multiset(Entries(ds)) == multiset(m.files)
  }

  /** The installed metadata for an accepted archive, receipt included. */
  ghost function Records(env: Env, archive: bytes, key: Option<bytes>, allowUnsigned: bool,
                         encode: Report -> bytes): map<bytes, Inode>
    requires Accepts(env, archive, key, allowUnsigned)
  {
    var v := Transcript(env, archive, key, allowUnsigned).result.value;
    Receipted(v.front.raw, v.front.signature, encode(ReportOf(env, archive, v)))
  }

  ghost function Accepted(env: Env, archive: bytes, key: Option<bytes>, allowUnsigned: bool): Manifest
    requires Accepts(env, archive, key, allowUnsigned)
  {
    Transcript(env, archive, key, allowUnsigned).result.value.front.manifest
  }

  /** Whatever a crash leaves: a receipt only over a complete, verified tree. */
  ghost predicate CrashSafe(env: Env, archive: bytes, key: Option<bytes>, allowUnsigned: bool,
                            encode: Report -> bytes, history: seq<Tree>) {
    (forall t <- history :: NoReceipt(t))
    || (Accepts(env, archive, key, allowUnsigned)
        && exists ds :: Contents(env, Accepted(env, archive, key, allowUnsigned), ds)
                        && Vouched(history, ds, Records(env, archive, key, allowUnsigned, encode)))
  }

  ghost predicate Installed(env: Env, archive: bytes, key: Option<bytes>, allowUnsigned: bool,
                            encode: Report -> bytes, folded: bytes -> bytes, t: Tree) {
    && Accepts(env, archive, key, allowUnsigned)
    && Installable(Accepted(env, archive, key, allowUnsigned), folded)
    && exists ds: seq<Delivered> :: Contents(env, Accepted(env, archive, key, allowUnsigned), ds)
                    && Sealed(t, Needed(DeliveredPaths(ds)), ds,
                              Records(env, archive, key, allowUnsigned, encode))
  }

  /** The call that a sink refuses although nothing went wrong around it. */
  ghost predicate RefusedAt(log: seq<Event>, k: nat, folded: bytes -> bytes)
    requires k < |log|
  {
    if k == 0 then Refusable(Unpacked([], None), log[0], folded)
    else
      var u := FeedAll(Unpacked([], None), log[1..k]);
      u.Some? && Refusable(u.value, log[k], folded)
  }

  /** The installer's work on the calls made so far. */
  method Unpack(unpacker: Unpacker, log: seq<Event>) returns (ok: bool)
    requires unpacker.Tidy() && !unpacker.reserved && unpacker.got == Unpacked([], None) && unpacker.final == 0
    requires log != [] ==> log[0].Begin? && AllCallable(log[1..])
    modifies unpacker, unpacker.disk
    ensures unpacker.Unpublished()
    ensures ok ==> unpacker.Tidy() && unpacker.final == 0
    ensures ok && log != [] ==> Installable(log[0].manifest, unpacker.folded)
    ensures ok && log != [] ==> unpacker.manifestBytes == log[0].raw && unpacker.signature == log[0].signature
                                && FeedAll(Unpacked([], None), log[1..]) == Some(unpacker.got)
    ensures unpacker.disk.faults >= old(unpacker.disk.faults)
    ensures ok ==> unpacker.disk.faults == old(unpacker.disk.faults)
    ensures !ok && unpacker.disk.faults == old(unpacker.disk.faults) ==>
              exists k :: 0 <= k < |log| && RefusedAt(log, k, unpacker.folded)
  {
    if log == [] {
      return true;
    }
    hide FeedAll, Feed, Clear, Installable, Fresh;
    ok := unpacker.Handle(log[0]);
    if !ok {
      assert unpacker.disk.faults == old(unpacker.disk.faults) ==> RefusedAt(log, 0, unpacker.folded);
      return;
    }
    FeedNone(Unpacked([], None));
    assert log[1..1] == [] && log[1..|log|] == log[1..];
    for i := 1 to |log|
      invariant unpacker.Tidy() && unpacker.reserved && unpacker.final == 0
      invariant unpacker.manifestBytes == log[0].raw && unpacker.signature == log[0].signature
      invariant FeedAll(Unpacked([], None), log[1..i]) == Some(unpacker.got)
      invariant unpacker.disk.faults == old(unpacker.disk.faults)
    {
      assert Callable(log[1..][i - 1]);
      FeedNext(Unpacked([], None), log[1..i], log[i]);
      assert log[1..i + 1] == log[1..i] + [log[i]];
      ghost var before := unpacker.got;
      ok := unpacker.Handle(log[i]);
      if !ok {
        assert unpacker.disk.faults == old(unpacker.disk.faults) && Refusable(before, log[i], unpacker.folded) ==>
          RefusedAt(log, i, unpacker.folded);
        return;
      }
    }
    ok := true;
  }

  lemma FeedNone(u: Unpacked)
    ensures FeedAll(u, []) == Some(u)
  {
  }

  lemma FeedNext(u: Unpacked, events: seq<Event>, e: Event)
    ensures FeedAll(u, events + [e]) == match FeedAll(u, events) case None => None case Some(v) => Feed(v, e)
  {
    FeedAppend(u, events, [e]);
    if FeedAll(u, events).Some? {
      FeedFirst(FeedAll(u, events).value, e, []);
      assert [e] + [] == [e];
    }
  }

  /** What the accepted transcript makes of the calls. */
  lemma AcceptedCalls(env: Env, archive: bytes, key: Option<bytes>, allowUnsigned: bool)
    returns (ds: seq<Delivered>)
    requires Accepts(env, archive, key, allowUnsigned)
    ensures var run := Transcript(env, archive, key, allowUnsigned);
            var front := run.result.value.front;
            && run.events != [] && run.events[0] == Begin(front.manifest, front.raw, front.signature)
            && FeedAll(Unpacked([], None), run.events[1..]) == Some(Unpacked(ds, None))
            && Contents(env, front.manifest, ds)
            && run.result.value.at.files == |ds| && ManifestOk(front.manifest, env.lower)
  {
    ds := VerifierSound(env, archive, key, allowUnsigned);
    hide Transcript, FeedAll, ManifestOk, TrustOk;
    var events := Transcript(env, archive, key, allowUnsigned).events;
    assert events[1..] == AllEvents(ds);
    FeedFiles([], ds);
    assert [] + ds == ds;
  }

  lemma FeedStarts(u: Unpacked, e: Event)
    ensures Feed(u, e).Some? ==>
              Started(Feed(u, e).value) == Started(u) + if e.StartFile? then [e.entry.path] else []
  {
  }

  lemma {:induction false} StartedGrows(u: Unpacked, events: seq<Event>)
    ensures FeedAll(u, events).Some? ==> Started(u) <= Started(FeedAll(u, events).value)
    decreases |events|
  {
    hide Feed, Started;
    if events != [] && Feed(u, events[0]).Some? {
      FeedStarts(u, events[0]);
      StartedGrows(Feed(u, events[0]).value, events[1..]);
    }
  }

  /** In an inventory without conflicts a path not yet started is fresh. */
  lemma FreshPath(ds: seq<Delivered>, files: seq<FileEntry>, started: seq<bytes>, path: bytes)
    requires multiset(Entries(ds)) == multiset(files) && DistinctPaths(files) && NoConflict(files)
    requires started + [path] <= Started(Unpacked(ds, None))
    ensures Fresh(path, set p | p in started)
  {
    var all := Started(Unpacked(ds, None));
    var n := |started|;
    SameElements(Entries(ds), files);
    DistinctOrder(files, Entries(ds));
    hide Ancestors;
    forall i | 0 <= i < |all| ensures all[i] == Entries(ds)[i].path && exists f <- files :: f.path == all[i] {
      assert Entries(ds)[i] in files;
    }
    assert path == all[n];
    forall i | 0 <= i < n
      ensures started[i] == all[i] != path && started[i] !in Ancestors(path) && path !in Ancestors(started[i])
    {
    }
  }

  /** Every call of an accepted transcript can be carried out. */
  lemma NeverRefused(ds: seq<Delivered>, files: seq<FileEntry>, log: seq<Event>, k: nat, folded: bytes -> bytes)
    requires 0 < k < |log| && AllCallable(log[1..])
    requires FeedAll(Unpacked([], None), log[1..]) == Some(Unpacked(ds, None))
    requires multiset(Entries(ds)) == multiset(files) && DistinctPaths(files) && NoConflict(files)
    ensures !RefusedAt(log, k, folded)
  {
    hide Feed, FeedAll, DistinctPaths, NoConflict, Fresh, Started;
    var start := Unpacked([], None);
    assert log[1..] == log[1..k] + log[k..] && log[k..] == [log[k]] + log[k + 1..];
    assert Callable(log[1..][k - 1]);
    FeedAppend(start, log[1..k], log[k..]);
    var u := FeedAll(start, log[1..k]).value;
    FeedFirst(u, log[k], log[k + 1..]);
    var v := Feed(u, log[k]).value;
    if log[k].StartFile? {
      FeedStarts(u, log[k]);
      StartedGrows(v, log[k + 1..]);
      FreshPath(ds, files, Started(u), log[k].entry.path);
    }
  }

  /** The verifier at work for a sink that takes every call. Whether this sink does
      is decided by handling the calls in turn. */
  method Observe(env: Env, archive: bytes, key: Option<bytes>, allowUnsigned: bool)
    returns (calls: seq<Event>, r: Result<Report, Error>)
    ensures var run := Transcript(env, archive, key, allowUnsigned);
            && calls == run.events
            && (r.Ok? <==> Accepts(env, archive, key, allowUnsigned))
            && (r.Ok? ==> r.value == ReportOf(env, archive, run.result.value))
            && (r.Err? && run.result.Err? ==> r.error == run.result.error)
            && (r.Err? && run.result.Ok? ==> r.error in {ArchiveInvalid, LimitExceeded, TrailingData})
  {
    hide Transcript, Accepts, ReportOf, Deliver;
    var sink := new Sink(_ => false);
    DeliverAll([], Transcript(env, archive, key, allowUnsigned).events);
    r := VerifyInner(env, archive, key, allowUnsigned, sink);
    calls := sink.log;
  }

  lemma {:induction false} DeliverAll(log: seq<Event>, events: seq<Event>)
    ensures Deliver(log, events, _ => false) == (log + events, true)
    decreases |events|
  {
    if events != [] {
      DeliverAll(log + [events[0]], events[1..]);
      assert log + events == log + [events[0]] + events[1..];
    } else {
      assert log + [] == log;
    }
  }

  /** `install_owned`. The verifier's work and the sink's touch separate state, so
      the sink's calls are handled here in the order the verifier makes them; a
      call that the sink fails ends the installation. */
  method Install(env: Env, archive: bytes, key: Option<bytes>, allowUnsigned: bool,
                 encode: Report -> bytes, folded: bytes -> bytes, disk: Disk)
    returns (r: Result<Report, Error>)
    requires disk.tree == Tree(map[], []) && disk.history == [disk.tree]
    modifies disk
    ensures CrashSafe(env, archive, key, allowUnsigned, encode, disk.history)
    ensures r.Ok? ==> Installed(env, archive, key, allowUnsigned, encode, folded, disk.tree)
    ensures r.Ok? ==> r.value == ReportOf(env, archive, Transcript(env, archive, key, allowUnsigned).result.value)
    ensures disk.faults >= old(disk.faults)
    ensures r.Ok? <==> disk.faults == old(disk.faults) && Accepts(env, archive, key, allowUnsigned)
                       && Installable(Accepted(env, archive, key, allowUnsigned), folded)
    ensures r == Err(CommitUncertain) && RECEIPT in disk.tree.names ==> disk.faults >= old(disk.faults) + 2
    ensures var run := Transcript(env, archive, key, allowUnsigned);
            run.result.Err? ==> r == Err(SinkRefused) || r == Err(run.result.error)
  {
    hide Transcript, Accepts, FeedAll, Sealed, Vouched, Contents, ReportOf, Receipted, Needed, CrashSafe, Installed;
    hide Callable, AllCallable, Records, Accepted, Installable, RefusedAt, DeliveredPaths, Clear;
    TranscriptCallable(env, archive, key, allowUnsigned);
    var calls, verified := Observe(env, archive, key, allowUnsigned);
    var unpacker := new Unpacker(disk, folded);
    var ok := Unpack(unpacker, calls);
    Unstarted(env, archive, key, allowUnsigned, encode, disk.history);
    if verified.Ok? {
      Willing(env, archive, key, allowUnsigned, folded);
    }
    if !ok {
      return Err(SinkRefused);
    }
    if verified.Err? {
      return verified;
    }
    ghost var ds := AcceptedCalls(env, archive, key, allowUnsigned);
    RecordsAre(env, archive, key, allowUnsigned, encode);
    CountIs(env, archive, key, allowUnsigned);
    var commitment := unpacker.Commit(encode(verified.value), verified.value.filesVerified);
    Concluded(env, archive, key, allowUnsigned, encode, disk.history, ds);
    if !commitment.Committed? {
      return Err(if commitment.Unconfirmed? then CommitUncertain else SinkRefused);
    }
    Settled(env, archive, key, allowUnsigned, encode, folded, disk.tree, ds);
    r := verified;
  }

  /** The installer's part in an accepted archive: it takes every call, unless the
      target or the names of the inventory are not for it. */
  lemma Willing(env: Env, archive: bytes, key: Option<bytes>, allowUnsigned: bool, folded: bytes -> bytes)
    requires Accepts(env, archive, key, allowUnsigned)
    ensures var log := Transcript(env, archive, key, allowUnsigned).events;
            && log != [] && log[0].Begin? && log[0].manifest == Accepted(env, archive, key, allowUnsigned)
            && forall k :: 0 <= k < |log| && RefusedAt(log, k, folded) ==>
                 !Installable(Accepted(env, archive, key, allowUnsigned), folded)
  {
    var ds := AcceptedCalls(env, archive, key, allowUnsigned);
    TranscriptCallable(env, archive, key, allowUnsigned);
    var m := Accepted(env, archive, key, allowUnsigned);
    var log := Transcript(env, archive, key, allowUnsigned).events;
    ManifestApart(m, env.lower);
    hide Transcript, Accepts, FeedAll, Feed, AllCallable, DistinctPaths, NoConflict, Installable, Fresh, ManifestOk;
    forall k | 0 <= k < |log| && RefusedAt(log, k, folded) ensures !Installable(m, folded) {
      if k > 0 {
        NeverRefused(ds, m.files, log, k, folded);
      }
    }
  }

  lemma ManifestApart(m: Manifest, lower: bytes -> bytes)
    requires ManifestOk(m, lower)
    ensures DistinctPaths(m.files) && NoConflict(m.files)
  {
    hide DistinctPaths, NoConflict, HeaderOk, AllPresent, LaunchersOk, IdentitiesMatch;
  }

  lemma CountIs(env: Env, archive: bytes, key: Option<bytes>, allowUnsigned: bool)
    requires Accepts(env, archive, key, allowUnsigned)
    ensures var v := Transcript(env, archive, key, allowUnsigned).result.value;
            ReportOf(env, archive, v).filesVerified == v.at.files
  {
    hide Transcript;
  }

  lemma RecordsAre(env: Env, archive: bytes, key: Option<bytes>, allowUnsigned: bool, encode: Report -> bytes)
    requires Accepts(env, archive, key, allowUnsigned)
    ensures var run := Transcript(env, archive, key, allowUnsigned);
            && run.result.Ok?
            && Accepted(env, archive, key, allowUnsigned) == run.result.value.front.manifest
            && Records(env, archive, key, allowUnsigned, encode)
               == Receipted(run.result.value.front.raw, run.result.value.front.signature,
                            encode(ReportOf(env, archive, run.result.value)))
  {
    hide Transcript, ReportOf, Receipted;
  }

  lemma Unstarted(env: Env, archive: bytes, key: Option<bytes>, allowUnsigned: bool, encode: Report -> bytes,
                  history: seq<Tree>)
    requires forall t <- history :: NoReceipt(t)
    ensures CrashSafe(env, archive, key, allowUnsigned, encode, history)
  {
    hide Accepts, Contents, Vouched, Records;
  }

  lemma Concluded(env: Env, archive: bytes, key: Option<bytes>, allowUnsigned: bool, encode: Report -> bytes,
                  history: seq<Tree>, ds: seq<Delivered>)
    requires Accepts(env, archive, key, allowUnsigned)
    requires Contents(env, Accepted(env, archive, key, allowUnsigned), ds)
    requires Vouched(history, ds, Records(env, archive, key, allowUnsigned, encode))
    ensures CrashSafe(env, archive, key, allowUnsigned, encode, history)
  {
    hide Accepts, Contents, Vouched, Records, Accepted;
  }

  lemma Settled(env: Env, archive: bytes, key: Option<bytes>, allowUnsigned: bool, encode: Report -> bytes,
                folded: bytes -> bytes, t: Tree, ds: seq<Delivered>)
    requires Accepts(env, archive, key, allowUnsigned)
    requires Installable(Accepted(env, archive, key, allowUnsigned), folded)
    requires Contents(env, Accepted(env, archive, key, allowUnsigned), ds)
    requires Sealed(t, Needed(DeliveredPaths(ds)), ds, Records(env, archive, key, allowUnsigned, encode))
    ensures Installed(env, archive, key, allowUnsigned, encode, folded, t)
  {
    hide Accepts, Contents, Sealed, Records, Accepted, Needed;
  }
}
