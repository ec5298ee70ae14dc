/** Verifying a package stream (src/artifact/verify.rs): the block-by-block
    reader that checks an archive against its manifest inventory while feeding a
    payload sink. Compression, hashing, signatures and JSON are parameters. */
module Verifier {
  import opened Prelude
  import opened Package
  import opened Inventory
  import opened UstarHeader
  import opened Printer

  const CHUNK: nat := 32768
  const MAX_PADDING: nat := 0x10_0000
  const STREAM_LIMIT: nat :=
    MAX_TOTAL_BYTES + MAX_MANIFEST_BYTES + (MAX_FILES + 2) * 1024 + 0x10_0000

  /** What the decompressor delivers before it stops, whether it stopped at a
      checked end of its member, and whether input remains after that. */
  datatype Gunzipped = Gunzipped(plain: bytes, intact: bool, trailing: bool)

  datatype Env = Env(
    sha256: bytes -> bytes,
    decode: bytes -> Option<Manifest>,
    signatureOf: bytes -> Option<bytes>,
    signed: (bytes, bytes, bytes) -> bool,
    lower: bytes -> bytes,
    gunzip: bytes -> Gunzipped)

  datatype Event =
    | Begin(manifest: Manifest, raw: bytes, signature: Option<bytes>)
    | StartFile(entry: FileEntry)
    | WriteChunk(data: bytes)
    | FinishFile

  datatype Report = Report(
    manifest: Manifest, archiveSha256: bytes, manifestSha256: bytes, isSigned: bool,
    filesVerified: nat, bytesVerified: nat)

  /** A stretch of the verifier: the sink calls it makes and where it leaves. */
  datatype Run<+T> = Run(events: seq<Event>, result: Result<T, Error>)

  // -------------------------------------------------- what each stage decides

  function NextHeader(rest: bytes): (r: Result<(Option<Header>, bytes), Error>)
    ensures r.Ok? ==> |r.value.1| + 512 <= |rest|
  {
    if |rest| < 512 then Err(ArchiveInvalid)
    else if AllZero(rest[..512]) then
      if |rest| < 1024 || !AllZero(rest[512..1024]) then Err(ArchiveInvalid)
      else Ok((None, rest[1024..]))
    else match ParseBlock(rest[..512])
      case Err(e) => Err(e)
      case Ok(header) => Ok((Some(header), rest[512..]))
  }

  function SkipPadding(rest: bytes, size: nat): (r: Result<bytes, Error>)
    ensures r.Ok? ==> |r.value| <= |rest|
  {
    var n := PaddingLength(size);
    if |rest| < n || !AllZero(rest[..n]) then Err(ArchiveInvalid) else Ok(rest[n..])
  }

  /** `read_small`: a metadata entry read into memory. */
  function TakeSmall(rest: bytes, size: nat): (r: Result<(bytes, bytes), Error>)
    ensures r.Ok? ==> |r.value.1| <= |rest|
  {
    if |rest| < size then Err(ArchiveInvalid)
    else match SkipPadding(rest[size..], size)
      case Err(e) => Err(e)
      case Ok(after) => Ok((rest[..size], after))
  }

  function Chunks(data: bytes): seq<Event> {
    if data == [] then []
    else
      var n := Min(|data|, CHUNK);
      [WriteChunk(data[..n])] + Chunks(data[n..])
  }

  /** The complete chunks that fit before a payload breaks off. */
  function WholeChunks(available: nat): nat {
    available / CHUNK * CHUNK
  }

  function FileRun(env: Env, rest: bytes, e: FileEntry): (r: Run<bytes>)
    ensures r.result.Ok? ==> |r.result.value| <= |rest|
  {
    if |rest| < e.size then
      Run([StartFile(e)] + Chunks(rest[..WholeChunks(|rest|)]), Err(ArchiveInvalid))
    else
      var events := [StartFile(e)] + Chunks(rest[..e.size]);
      if env.sha256(rest[..e.size]) != e.sha256 then Run(events, Err(HashMismatch))
      else match SkipPadding(rest[e.size..], e.size)
        case Err(error) => Run(events, Err(error))
        case Ok(after) => Run(events + [FinishFile], Ok(after))
  }

  /** The position of the payload loop: counts so far and the bytes ahead. */
  datatype Payload = Payload(files: nat, total: nat, rest: bytes)

  function FilesRun(env: Env, next: Option<Header>, inventory: map<bytes, FileEntry>, at: Payload): Run<Payload>
    decreases |at.rest|, 1
  {
    match next
    case None => Run([], if inventory == map[] then Ok(at) else Err(InventoryMismatch))
    case Some(h) =>
      var entry := Expected(env, h, inventory);
      if entry.Err? then Run([], Err(entry.error))
      else
        var file := FileRun(env, at.rest, entry.value);
        if file.result.Err? then Run(file.events, Err(file.result.error))
        else
          var tail := AfterFile(env, inventory - {h.name},
                                Payload(at.files + 1, at.total + h.size, file.result.value));
          Run(file.events + tail.events, tail.result)
  }

  function AfterFile(env: Env, inventory: map<bytes, FileEntry>, at: Payload): Run<Payload>
    decreases |at.rest|, 0
  {
    match NextHeader(at.rest)
    case Err(e) => Run([], Err(e))
    case Ok((next, rest)) => FilesRun(env, next, inventory, at.(rest := rest))
  }

  /** The inventory entry that a payload header must announce. */
  function Expected(env: Env, h: Header, inventory: map<bytes, FileEntry>): Result<FileEntry, Error> {
    var valid := ValidatePath(h.name, env.lower);
    if valid.Err? then Err(valid.error)
    else if h.name !in inventory then Err(InventoryMismatch)
    else
      var e := inventory[h.name];
      if h.size != e.size || h.mode != e.mode then Err(InventoryMismatch) else Ok(e)
  }

  datatype Front = Front(manifest: Manifest, raw: bytes, signature: Option<bytes>,
                         next: Option<Header>, rest: bytes)

  /** The manifest entry, the optional signature entry, and the first header. */
  ghost function FrontRun(env: Env, rest: bytes, key: Option<bytes>, allowUnsigned: bool): Result<Front, Error> {
    match NextHeader(rest)
    case Err(e) => Err(e)
    case Ok((None, _)) => Err(ManifestInvalid)
    case Ok((Some(first), r1)) =>
      if first.name != MANIFEST_NAME || first.mode != MODE_PLAIN || first.size == 0
         || first.size > MAX_MANIFEST_BYTES then Err(ManifestInvalid)
      else match TakeSmall(r1, first.size)
        case Err(e) => Err(e)
        case Ok((raw, r2)) =>
          match env.decode(raw)
          case None => Err(JsonInvalid)
          case Some(manifest) =>
            match Verdict(manifest, true, env.lower)
            case Err(e) => Err(e)
            case Ok(_) => SignatureRun(env, manifest, raw, r2, key, allowUnsigned)
  }

  function SignatureRun(env: Env, manifest: Manifest, raw: bytes, rest: bytes,
                        key: Option<bytes>, allowUnsigned: bool): Result<Front, Error> {
    match NextHeader(rest)
    case Err(e) => Err(e)
    case Ok((next, r3)) =>
      if next.Some? && next.value.name == SIGNATURE_NAME then
        if next.value.size == 0 || next.value.size > 128 || next.value.mode != MODE_PLAIN then
          Err(SignatureInvalid)
        else match TakeSmall(r3, next.value.size)
          case Err(e) => Err(e)
          case Ok((text, r4)) =>
            if env.signatureOf(text).None? then Err(SignatureInvalid)
            else if key.None? then Err(TrustKeyRequired)
            else if !env.signed(key.value, raw, env.signatureOf(text).value) then Err(SignatureInvalid)
            else match NextHeader(r4)
              case Err(e) => Err(e)
              case Ok((following, r5)) => Ok(Front(manifest, raw, Some(text), following, r5))
      else if !allowUnsigned || key.Some? then Err(SignatureRequired)
      else Ok(Front(manifest, raw, None, next, r3))
  }

  function Index(files: seq<FileEntry>): (m: map<bytes, FileEntry>) {
    if files == [] then map[]
    else Index(files[..|files| - 1])[files[|files| - 1].path := files[|files| - 1]]
  }

  function Visible(plain: bytes): bytes {
    if |plain| <= STREAM_LIMIT then plain else plain[..STREAM_LIMIT]
  }

  /** Only a short run of zeros may follow the two end blocks. */
  predicate CleanEnd(z: Gunzipped, rest: bytes) {
    AllZero(rest) && |rest| <= MAX_PADDING && |z.plain| < STREAM_LIMIT && z.intact && !z.trailing
  }

  // ------------------------------------------------------------------ the sink

  /** A payload sink: it records every call and may refuse any of them, on the
      grounds of everything it has been told so far. */
  class Sink {
    var log: seq<Event>
    const refuses: seq<Event> -> bool

    constructor (refuses: seq<Event> -> bool)
      ensures log == [] && this.refuses == refuses
    {
      log := [];
      this.refuses := refuses;
    }

    method Call(e: Event) returns (ok: bool)
      modifies this
      ensures log == old(log) + [e] && ok == !refuses(log)
    {
      log := log + [e];
      ok := !refuses(log);
    }
  }

  /** The calls a sink receives when offered these events, up to its refusal. */
  function Deliver(log: seq<Event>, events: seq<Event>, refuses: seq<Event> -> bool): (seq<Event>, bool)
    decreases |events|
  {
    if events == [] then (log, true)
    else
      var next := log + [events[0]];
      if refuses(next) then (next, false) else Deliver(next, events[1..], refuses)
  }

  lemma DeliverNothing(log: seq<Event>, refuses: seq<Event> -> bool)
    ensures Deliver(log, [], refuses) == (log, true)
  {
  }

  lemma {:induction false} DeliverAppend(log: seq<Event>, a: seq<Event>, b: seq<Event>,
                                         refuses: seq<Event> -> bool)
    ensures var (l, ok) := Deliver(log, a, refuses);
            Deliver(log, a + b, refuses) == if ok then Deliver(l, b, refuses) else (l, false)
    decreases |a|
  {
    if a == [] {
      assert a + b == b;
    } else {
      assert (a + b)[1..] == a[1..] + b;
      if !refuses(log + [a[0]]) {
        DeliverAppend(log + [a[0]], a[1..], b, refuses);
      }
    }
  }

  lemma {:induction false} DeliverGrows(log: seq<Event>, events: seq<Event>, refuses: seq<Event> -> bool)
    ensures var (l, ok) := Deliver(log, events, refuses);
            log <= l <= log + events && (ok ==> l == log + events)
    decreases |events|
  {
    if events != [] && !refuses(log + [events[0]]) {
      DeliverGrows(log + [events[0]], events[1..], refuses);
      assert log + events == log + [events[0]] + events[1..];
    } else if events != [] {
      assert log + events == log + [events[0]] + events[1..];
    }
  }

  // --------------------------------------------------------------- the stream

  /** The bounded decompressed stream: `rest` is what a reader can still see. */
  class Stream {
    var rest: bytes
    const capped: bool
    const intact: bool

    constructor (z: Gunzipped)
      ensures rest == Visible(z.plain)
      ensures capped == (|z.plain| >= STREAM_LIMIT) && intact == z.intact
    {
      rest := Visible(z.plain);
      capped := |z.plain| >= STREAM_LIMIT;
      intact := z.intact;
    }

    /** `read_exact`: all of `n` bytes, or an error. */
    method ReadExact(n: nat) returns (r: Result<bytes, Error>)
      modifies this
      ensures r.Ok? <==> n <= |old(rest)|
      ensures r.Ok? ==> r.value == old(rest)[..n] && rest == old(rest)[n..]
      ensures r.Err? ==> r.error == ArchiveInvalid
    {
      if n > |rest| {
        rest := [];
        return Err(ArchiveInvalid);
      }
      r := Ok(rest[..n]);
      rest := rest[n..];
    }

    /** `read`: some of the bytes ahead, as many as the decompressor has ready;
        a broken member shows once everything before the break has been read. */
    method Read(capacity: nat) returns (r: Result<bytes, Error>)
      requires capacity > 0
      modifies this
      ensures r.Ok? <==> old(rest) != [] || capped || intact
      ensures r.Ok? ==> old(rest) == r.value + rest && (r.value == [] ==> rest == [])
      ensures r.Err? ==> r.error == ArchiveInvalid
    {
      if rest == [] && !capped && !intact {
        return Err(ArchiveInvalid);
      }
      var n: int := *;
      if n <= 0 || n > capacity {
        n := capacity;
      }
      n := Min(n, |rest|);
      r := Ok(rest[..n]);
      rest := rest[n..];
    }
  }

  method ReadHeader(raw: Stream) returns (r: Result<Option<Header>, Error>)
    modifies raw
    ensures match NextHeader(old(raw.rest))
            case Err(e) => r == Err(e)
            case Ok((next, rest)) => r == Ok(next) && raw.rest == rest
  {
    ghost var before := raw.rest;
    var block :- raw.ReadExact(512);
    if AllZero(block) {
      var second :- raw.ReadExact(512);
      assert second == before[512..1024];
      if !AllZero(second) {
        return Err(ArchiveInvalid);
      }
      return Ok(None);
    }
    var header :- ParseBlock(block);
    return Ok(Some(header));
  }

  method ReadPadding(raw: Stream, size: nat) returns (r: Result<(), Error>)
    modifies raw
    ensures match SkipPadding(old(raw.rest), size)
            case Err(e) => r == Err(e)
            case Ok(rest) => r.Ok? && raw.rest == rest
  {
    var padding :- raw.ReadExact(PaddingLength(size));
    r := if AllZero(padding) then Ok(()) else Err(ArchiveInvalid);
  }

  method ReadSmall(raw: Stream, size: nat) returns (r: Result<bytes, Error>)
    modifies raw
    ensures match TakeSmall(old(raw.rest), size)
            case Err(e) => r == Err(e)
            case Ok((data, rest)) => r == Ok(data) && raw.rest == rest
  {
    var data :- raw.ReadExact(size);
    var padded :- ReadPadding(raw, size);
    r := Ok(data);
  }

  // ------------------------------------------------------------- the verifier

  /** How a stretch of the verifier shows in the sink's log and its outcome. */
  ghost predicate Shows<T, U>(run: Run<T>, before: seq<Event>, refuses: seq<Event> -> bool,
                              after: seq<Event>, r: Result<U, Error>) {
    var (log, accepted) := Deliver(before, run.events, refuses);
    && after == log
    && (!accepted ==> r == Err(SinkRefused))
    && (accepted ==> if run.result.Err? then r == Err(run.result.error) else r.Ok?)
  }

  /** The events of one file that are still to come after `k` payload bytes. */
  function Ahead(env: Env, rest: bytes, e: FileEntry, k: nat): seq<Event>
    requires k <= Min(e.size, |rest|) && (|rest| < e.size ==> k <= WholeChunks(|rest|))
  {
    if |rest| < e.size then Chunks(rest[k..WholeChunks(|rest|)])
    else Chunks(rest[k..e.size]) + if FileRun(env, rest, e).result.Ok? then [FinishFile] else []
  }

  lemma ChunkAhead(env: Env, rest: bytes, e: FileEntry, k: nat)
    requires k < e.size && k % CHUNK == 0 && k + Min(e.size - k, CHUNK) <= |rest|
    ensures var n := Min(e.size - k, CHUNK);
            && (|rest| < e.size ==> k + n <= WholeChunks(|rest|))
            && Ahead(env, rest, e, k) == [WriteChunk(rest[k..k + n])] + Ahead(env, rest, e, k + n)
  {
    var n := Min(e.size - k, CHUNK);
    var m := if |rest| < e.size then WholeChunks(|rest|) else e.size;
    var s := rest[k..m];
    assert n == Min(|s|, CHUNK);
    assert s[..n] == rest[k..k + n] && s[n..] == rest[k + n..m];
  }

  lemma BrokenOff(rest: bytes, size: nat, k: nat)
    requires k < size && k % CHUNK == 0 && k <= |rest| < k + Min(size - k, CHUNK)
    ensures WholeChunks(|rest|) == k && |rest| < size
  {
  }

  lemma NothingAhead(env: Env, rest: bytes, e: FileEntry, k: nat, log: seq<Event>, refuses: seq<Event> -> bool)
    requires |rest| < e.size && k == WholeChunks(|rest|) <= |rest|
    ensures Ahead(env, rest, e, k) == [] && Deliver(log, [], refuses) == (log, true)
  {
  }

  lemma DeliverNext(log: seq<Event>, e: Event, more: seq<Event>, refuses: seq<Event> -> bool)
    ensures Deliver(log, [e] + more, refuses) ==
              if refuses(log + [e]) then (log + [e], false) else Deliver(log + [e], more, refuses)
  {
    assert ([e] + more)[1..] == more;
  }

  /** Where the chunk loop stands: `k` bytes read, hashed and passed on. */
  ghost predicate Passed(env: Env, start: bytes, e: FileEntry, k: nat, before: seq<Event>,
                         rest: bytes, log: seq<Event>, refuses: seq<Event> -> bool) {
    && k <= Min(e.size, |start|)
    && (k < e.size ==> k % CHUNK == 0)
    && (|start| < e.size ==> k <= WholeChunks(|start|))
    && rest == start[k..]
    && Deliver(before, Ahead(env, start, e, 0), refuses) == Deliver(log, Ahead(env, start, e, k), refuses)
  }

  /** One turn of the chunk loop. */
  method PassChunk(env: Env, raw: Stream, e: FileEntry, sink: Sink, k: nat,
                   ghost start: bytes, ghost before: seq<Event>)
    returns (r: Result<bytes, Error>)
    requires raw != sink as object && k < e.size
    requires Passed(env, start, e, k, before, raw.rest, sink.log, sink.refuses)
    modifies raw, sink
    ensures var n := Min(e.size - k, CHUNK);
            r.Ok? ==> k + n <= |start| && r.value == start[k..k + n]
                      && Passed(env, start, e, k + n, before, raw.rest, sink.log, sink.refuses)
    ensures r.Err? ==> ChunksFail(env, start, e, before, sink.log, sink.refuses, r.error)
  {
    hide FileRun, Ahead, Deliver;
    var amount := Min(e.size - k, CHUNK);
    if k + amount > |start| {
      BrokenOff(start, e.size, k);
      NothingAhead(env, start, e, k, sink.log, sink.refuses);
    } else {
      ChunkAhead(env, start, e, k);
    }
    var buffer :- raw.ReadExact(amount);
    assert buffer == start[k..k + amount];
    DeliverNext(sink.log, WriteChunk(buffer), Ahead(env, start, e, k + amount), sink.refuses);
    var ok := sink.Call(WriteChunk(buffer));
    r := if ok then Ok(buffer) else Err(SinkRefused);
  }

  ghost predicate ChunksFail(env: Env, start: bytes, e: FileEntry, before: seq<Event>,
                             log: seq<Event>, refuses: seq<Event> -> bool, error: Error) {
    var (l, accepted) := Deliver(before, Ahead(env, start, e, 0), refuses);
    log == l && if accepted then error == ArchiveInvalid && |start| < e.size else error == SinkRefused
  }

  method PassChunks(env: Env, raw: Stream, e: FileEntry, sink: Sink) returns (r: Result<bytes, Error>)
    requires raw != sink as object
    modifies raw, sink
    ensures r.Ok? ==> e.size <= |old(raw.rest)| && r.value == old(raw.rest)[..e.size]
                      && Passed(env, old(raw.rest), e, e.size, old(sink.log), raw.rest, sink.log, sink.refuses)
    ensures r.Err? ==> ChunksFail(env, old(raw.rest), e, old(sink.log), sink.log, sink.refuses, r.error)
  {
    hide Ahead, Deliver;
    ghost var start, before := raw.rest, sink.log;
    var digest: bytes := [];
    var remaining := e.size;
    while remaining > 0
      invariant 0 <= remaining <= e.size
      invariant Passed(env, start, e, e.size - remaining, before, raw.rest, sink.log, sink.refuses)
      invariant digest == start[..e.size - remaining]
    {
      var k := e.size - remaining;
      var buffer :- PassChunk(env, raw, e, sink, k, start, before);
      assert start[..k + |buffer|] == start[..k] + start[k..k + |buffer|];
      digest := digest + buffer;
      remaining := remaining - |buffer|;
    }
    r := Ok(digest);
  }

  lemma FileBegin(env: Env, start: bytes, e: FileEntry, log: seq<Event>, refuses: seq<Event> -> bool)
    ensures Deliver(log, FileRun(env, start, e).events, refuses) ==
              if refuses(log + [StartFile(e)]) then (log + [StartFile(e)], false)
              else Deliver(log + [StartFile(e)], Ahead(env, start, e, 0), refuses)
  {
    assert FileRun(env, start, e).events == [StartFile(e)] + Ahead(env, start, e, 0);
    DeliverNext(log, StartFile(e), Ahead(env, start, e, 0), refuses);
  }

  lemma FileEnd(env: Env, start: bytes, e: FileEntry, log: seq<Event>, refuses: seq<Event> -> bool)
    requires e.size <= |start|
    ensures Deliver(log, Ahead(env, start, e, e.size), refuses) ==
              if FileRun(env, start, e).result.Err? then (log, true)
              else (log + [FinishFile], !refuses(log + [FinishFile]))
  {
    assert start[e.size..e.size] == [];
    if FileRun(env, start, e).result.Ok? {
      assert Ahead(env, start, e, e.size) == [FinishFile] + [];
      DeliverNext(log, FinishFile, [], refuses);
    } else {
      assert Ahead(env, start, e, e.size) == [];
    }
  }

  /** One payload entry: announce it, pass on and hash its bytes chunk by chunk,
      and finish it only once the hash and the padding are right. */
  method VerifyFile(env: Env, raw: Stream, e: FileEntry, sink: Sink) returns (r: Result<(), Error>)
    requires raw != sink as object
    modifies raw, sink
    ensures var run := FileRun(env, old(raw.rest), e);
            && Shows(run, old(sink.log), sink.refuses, sink.log, r)
            && (r.Ok? ==> run.result == Ok(raw.rest))
  {
    ghost var start := raw.rest;
    FileBegin(env, start, e, sink.log, sink.refuses);
    var ok := sink.Call(StartFile(e));
    if !ok {
      return Err(SinkRefused);
    }
    var digest :- PassChunks(env, raw, e, sink);
    FileEnd(env, start, e, sink.log, sink.refuses);
    if env.sha256(digest) != e.sha256 {
      return Err(HashMismatch);
    }
    var padded :- ReadPadding(raw, e.size);
    ok := sink.Call(FinishFile);
    r := if ok then Ok(()) else Err(SinkRefused);
  }

  /** What is left of a verification whose payload loop stands at `at`. */
  ghost predicate Continues(env: Env, whole: Run<Payload>, before: seq<Event>, refuses: seq<Event> -> bool,
                            tail: Run<Payload>, log: seq<Event>) {
    && whole.result == tail.result
    && Deliver(before, whole.events, refuses) == Deliver(log, tail.events, refuses)
  }

  /** One turn of the payload loop, up to the search for the next header. */
  method VerifyEntry(env: Env, raw: Stream, sink: Sink, h: Header, inventory: map<bytes, FileEntry>,
                     ghost at: Payload, ghost whole: Run<Payload>, ghost before: seq<Event>)
    returns (r: Result<(), Error>)
    requires raw != sink as object && raw.rest == at.rest
    requires Continues(env, whole, before, sink.refuses, FilesRun(env, Some(h), inventory, at), sink.log)
    modifies raw, sink
    ensures r.Ok? ==> Continues(env, whole, before, sink.refuses,
                                AfterFile(env, inventory - {h.name},
                                          Payload(at.files + 1, at.total + h.size, raw.rest)), sink.log)
    ensures r.Ok? ==> h.name in inventory && |raw.rest| <= |at.rest|
    ensures r.Err? ==> Shows(whole, before, sink.refuses, sink.log, r)
  {
    hide FileRun, NextHeader, ValidatePath;
    var expected := Expected(env, h, inventory);
    if expected.Err? {
      return Err(expected.error);
    }
    ghost var file := FileRun(env, at.rest, expected.value);
    if file.result.Ok? {
      ghost var tail := AfterFile(env, inventory - {h.name},
                                  Payload(at.files + 1, at.total + h.size, file.result.value));
      DeliverAppend(sink.log, file.events, tail.events, sink.refuses);
    }
    r := VerifyFile(env, raw, expected.value, sink);
  }

  /** One whole turn: the entry, then the header after it. */
  method VerifyNext(env: Env, raw: Stream, sink: Sink, h: Header, inventory: map<bytes, FileEntry>,
                    ghost files: nat, ghost total: nat, ghost whole: Run<Payload>, ghost before: seq<Event>)
    returns (r: Result<Option<Header>, Error>)
    requires raw != sink as object
    requires Continues(env, whole, before, sink.refuses,
                       FilesRun(env, Some(h), inventory, Payload(files, total, raw.rest)), sink.log)
    modifies raw, sink
    ensures r.Ok? ==> Continues(env, whole, before, sink.refuses,
                                FilesRun(env, r.value, inventory - {h.name},
                                         Payload(files + 1, total + h.size, raw.rest)), sink.log)
    ensures r.Ok? ==> |raw.rest| < |old(raw.rest)|
    ensures r.Err? ==> Shows(whole, before, sink.refuses, sink.log, r)
  {
    hide FileRun, Expected, NextHeader;
    var done := VerifyEntry(env, raw, sink, h, inventory, Payload(files, total, raw.rest), whole, before);
    if done.Err? {
      return Err(done.error);
    }
    r := ReadHeader(raw);
  }

  method VerifyFiles(env: Env, raw: Stream, sink: Sink, first: Option<Header>, files: seq<FileEntry>)
    returns (r: Result<(nat, nat), Error>)
    requires raw != sink as object
    modifies raw, sink
    ensures var run := FilesRun(env, first, Index(files), Payload(0, 0, old(raw.rest)));
            && Shows(run, old(sink.log), sink.refuses, sink.log, r)
            && (r.Ok? ==> run.result == Ok(Payload(r.value.0, r.value.1, raw.rest)))
  {
    hide FileRun, Expected, NextHeader, Index;
    var inventory := Index(files);
    ghost var whole := FilesRun(env, first, inventory, Payload(0, 0, raw.rest));
    ghost var before := sink.log;
    var filesVerified: nat, bytesVerified: nat := 0, 0;
    var next := first;
    while next.Some?
      invariant Continues(env, whole, before, sink.refuses,
                          FilesRun(env, next, inventory, Payload(filesVerified, bytesVerified, raw.rest)),
                          sink.log)
      decreases next.Some?, |raw.rest|
    {
      var h := next.value;
      next :- VerifyNext(env, raw, sink, h, inventory, filesVerified, bytesVerified, whole, before);
      inventory := inventory - {h.name};
      filesVerified := filesVerified + 1;
      bytesVerified := bytesVerified + h.size;
    }
    r := if inventory == map[] then Ok((filesVerified, bytesVerified)) else Err(InventoryMismatch);
  }

  /** The metadata entries, read in place. */
  method ReadFront(env: Env, raw: Stream, key: Option<bytes>, allowUnsigned: bool)
    returns (r: Result<Front, Error>)
    modifies raw
    ensures r == FrontRun(env, old(raw.rest), key, allowUnsigned)
    ensures r.Ok? ==> raw.rest == r.value.rest
  {
    var first :- ReadHeader(raw);
    if first.None? {
      return Err(ManifestInvalid);
    }
    var h := first.value;
    if h.name != MANIFEST_NAME || h.mode != MODE_PLAIN || h.size == 0 || h.size > MAX_MANIFEST_BYTES {
      return Err(ManifestInvalid);
    }
    var bytes :- ReadSmall(raw, h.size);
    var decoded := env.decode(bytes);
    if decoded.None? {
      return Err(JsonInvalid);
    }
    var valid := ValidateManifest(decoded.value, true, env.lower);
    if valid.Err? {
      return Err(valid.error);
    }
    r := ReadSignature(env, decoded.value, bytes, raw, key, allowUnsigned);
  }

  method ReadSignature(env: Env, manifest: Manifest, bytes: bytes, raw: Stream, key: Option<bytes>,
                       allowUnsigned: bool)
    returns (r: Result<Front, Error>)
    modifies raw
    ensures r == SignatureRun(env, manifest, bytes, old(raw.rest), key, allowUnsigned)
    ensures r.Ok? ==> raw.rest == r.value.rest
  {
    var next :- ReadHeader(raw);
    if next.Some? && next.value.name == SIGNATURE_NAME {
      if next.value.size == 0 || next.value.size > 128 || next.value.mode != MODE_PLAIN {
        return Err(SignatureInvalid);
      }
      var text :- ReadSmall(raw, next.value.size);
      var signature := env.signatureOf(text);
      if signature.None? {
        return Err(SignatureInvalid);
      }
      if key.None? {
        return Err(TrustKeyRequired);
      }
      if !env.signed(key.value, bytes, signature.value) {
        return Err(SignatureInvalid);
      }
      next :- ReadHeader(raw);
      return Ok(Front(manifest, bytes, Some(text), next, raw.rest));
    }
    if !allowUnsigned || key.Some? {
      return Err(SignatureRequired);
    }
    r := Ok(Front(manifest, bytes, None, next, raw.rest));
  }

  lemma NoZeros(start: bytes)
    ensures AllZero(start[..0]) && start[0..] == start
  {
  }

  lemma MoreZeros(start: bytes, k: nat, buffer: bytes, rest: bytes)
    requires k <= |start| && start[k..] == buffer + rest && AllZero(start[..k])
    ensures k + |buffer| <= |start| && start[k + |buffer|..] == rest
    ensures AllZero(start[..k + |buffer|]) <==> AllZero(buffer)
    ensures AllZero(start) ==> AllZero(buffer)
    ensures rest == [] ==> start[..k + |buffer|] == start
  {
    assert forall i :: 0 <= i < |buffer| ==> buffer[i] == start[k..][i] == start[k + i];
    assert start[k + |buffer|..] == start[k..][|buffer|..];
  }

  /** After the end blocks: read on to the checked end of the member. */
  method ReadToEnd(raw: Stream) returns (r: Result<(), Error>)
    modifies raw
    ensures r.Ok? <==> AllZero(old(raw.rest)) && |old(raw.rest)| <= MAX_PADDING && !raw.capped && raw.intact
    ensures r.Err? ==> r.error in {ArchiveInvalid, LimitExceeded, TrailingData}
  {
    hide AllZero;
    ghost var start := raw.rest;
    var padding := 0;
    NoZeros(start);
    while true
      invariant padding + |raw.rest| == |start| && padding <= MAX_PADDING
      invariant raw.rest == start[padding..] && AllZero(start[..padding])
      invariant raw.capped ==> raw.rest != [] || padding == 0
      decreases |raw.rest|
    {
      var buffer :- raw.Read(CHUNK);
      MoreZeros(start, padding, buffer, raw.rest);
      padding := padding + |buffer|;
      if padding > MAX_PADDING || (raw.capped && raw.rest == []) {
        return Err(LimitExceeded);
      }
      if !AllZero(buffer) {
        return Err(TrailingData);
      }
      if buffer == [] {
        break;
      }
    }
    assert start[..padding] == start;
    r := Ok(());
  }

  // ------------------------------------------------------- the whole verifier

  datatype Verified = Verified(front: Front, at: Payload)

  /** The calls offered to the sink, and the outcome up to the end blocks. */
  ghost function Transcript(env: Env, archive: bytes, key: Option<bytes>, allowUnsigned: bool): Run<Verified> {
    if archive == [] || |archive| > MAX_ARCHIVE_BYTES then Run([], Err(LimitExceeded))
    else match FrontRun(env, Visible(env.gunzip(archive).plain), key, allowUnsigned)
      case Err(e) => Run([], Err(e))
      case Ok(front) =>
        var files := FilesRun(env, front.next, Index(front.manifest.files), Payload(0, 0, front.rest));
        Run([Begin(front.manifest, front.raw, front.signature)] + files.events,
            match files.result case Err(e) => Err(e) case Ok(at) => Ok(Verified(front, at)))
  }

  function ReportOf(env: Env, archive: bytes, v: Verified): Report {
    Report(v.front.manifest, env.sha256(archive), env.sha256(v.front.raw), v.front.signature.Some?,
           v.at.files, v.at.total)
  }

  /** Acceptance: the transcript completed and nothing but zeros follows it. */
  ghost predicate Accepts(env: Env, archive: bytes, key: Option<bytes>, allowUnsigned: bool) {
    var run := Transcript(env, archive, key, allowUnsigned);
    run.result.Ok? && CleanEnd(env.gunzip(archive), run.result.value.at.rest)
  }

  /** The sink sees the transcript up to its first refusal, whatever the outcome;
      a report comes out exactly when the whole archive is acceptable to both. */
  method VerifyInner(env: Env, archive: bytes, key: Option<bytes>, allowUnsigned: bool, sink: Sink)
    returns (r: Result<Report, Error>)
    modifies sink
    ensures var run := Transcript(env, archive, key, allowUnsigned);
            var (log, accepted) := Deliver(old(sink.log), run.events, sink.refuses);
            && sink.log == log
            && (r.Ok? <==> accepted && Accepts(env, archive, key, allowUnsigned))
            && (r.Ok? ==> r.value == ReportOf(env, archive, run.result.value))
            && (!accepted ==> r == Err(SinkRefused))
            && (accepted && run.result.Err? ==> r == Err(run.result.error))
            && (accepted && run.result.Ok? && r.Err? ==>
                  r.error in {ArchiveInvalid, LimitExceeded, TrailingData})
  {
    hide FrontRun, FilesRun, Deliver;
    DeliverNothing(sink.log, sink.refuses);
    if archive == [] || |archive| > MAX_ARCHIVE_BYTES {
      return Err(LimitExceeded);
    }
    var z := env.gunzip(archive);
    var raw := new Stream(z);
    var front :- ReadFront(env, raw, key, allowUnsigned);
    var begin := Begin(front.manifest, front.raw, front.signature);
    ghost var files := FilesRun(env, front.next, Index(front.manifest.files), Payload(0, 0, front.rest));
    DeliverNext(sink.log, begin, files.events, sink.refuses);
    var ok := sink.Call(begin);
    if !ok {
      return Err(SinkRefused);
    }
    var counts :- VerifyFiles(env, raw, sink, front.next, front.manifest.files);
    var ended :- ReadToEnd(raw);
    if z.trailing {
      return Err(TrailingData);
    }
    r := Ok(Report(front.manifest, env.sha256(archive), env.sha256(front.raw), front.signature.Some?,
                   counts.0, counts.1));
  }
}
