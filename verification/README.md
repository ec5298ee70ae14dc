# Verified model of the bxdl package, instance and service core

This project models the parts of bxdl that decide something hard and proves what
they are for: the signed USTAR package and its streaming verifier, the one-shot
initialization protocol, installation and re-verification, the exclusive export
of diagnostics, the hand-written parsers (JSON shape, launchctl, DER, chunked
bodies), the engine report acceptors with their lenient projection, and the
canonical inventory and network documents.

`dafny verify dfyconfig.toml` checks the whole project.

## How it is modelled

- Bytes are integers below 256 and text is bytes. Compression, SHA-256, Ed25519,
  JSON decoding, lower-casing, file-name folding and host-name canonicalization
  are parameters: a theorem holds for every function put in their place that has
  the properties its `requires` names, and most name none.
- Code that works in place is a method or a class (`TarHeader` on its 512-byte
  array, `ArchiveWriter`, `Stream`, `Sink`, `Unpacker`, `Scanner`, `Reader`).
  Each such method is proved equal to a specification function or predicate, and
  the theorems are about those.
- The initialization protocol and the export protocol are transition systems.
  Any number of participants interleave, each may stop at any step, and every
  save, link or removal may fail, or take effect and still report an error. The
  methods `Initialize` and `WriteExport` take their steps in such a system, with
  any steps of the others in between. What the outside world decides for them (a
  failing operation, the fresh attempt id, the child's end) is an input, so that
  their contracts can say which outcome follows.
- The file tree of the installer keeps every state it passed through, because a
  crash may leave any of them behind. Each of its operations, too, may report a
  failure whether or not it took effect; such faults are counted, and without one
  an installation fails only for a reason in its archive.

| file | models |
|---|---|
| `Prelude.dfy`, `Paths.dfy`, `Lists.dfy`, `TextRules.dfy` | outcomes, bytes, decimal text, paths and their ancestors, sequences up to order, text by its Unicode scalars |
| `Package.dfy`, `Inventory.dfy`, `Aliases.dfy`, `ManifestRules.dfy` | the manifest, its validation, name collisions, and the rules in full |
| `UstarHeader.dfy`, `HeaderRules.dfy`, `Printer.dfy`, `PrinterRules.dfy` | the archive header and the archive writer, and their blocks byte by byte |
| `Verifier.dfy`, `Soundness.dfy`, `RoundTrip.dfy`, `ArchiveRules.dfy` | the streaming verifier, what acceptance means, reading back what was written, and the grammar of archives |
| `Installer.dfy`, `Install.dfy`, `Installed.dfy`, `Reverify.dfy`, `InstalledRules.dfy` | unpacking, commit and receipt, the tree walk, re-verification, and the accepted trees path by path |
| `InitProtocol.dfy`, `InitRuns.dfy` | lock, journal, engine child and the callers of `initialize`; the runs that must be possible |
| `Publication.dfy`, `PublicationRuns.dfy`, `Export.dfy` | exporters that share a directory, the runs that must succeed, and the method that exports |
| `JsonShape.dfy`, `Launchd.dfy`, `LaunchdGrammar.dfy`, `LaunchdOutcomes.dfy`, `Der.dfy`, `Chunked.dfy` | the parsers and their grammars |
| `Network.dfy`, `NetworkRules.dfy`, `Peers.dfy` | chain members, the canonical network and its rules, native peer settings |
| `Reports.dfy`, `Acceptors.dfy`, `Agreement.dfy`, `ReportRules.dfy` | the projection, the two acceptors, how they agree, and what each row must say |

The modules called Rules and Outcomes state a component's decisions by literal
names, bytes and numbers, without its own helper functions, and prove that this is
what it decides.

## Where the code does less than one might expect

- `validate_path` accepts paths that `tar_header` cannot print: a long middle
  component leaves no slash with at most 155 bytes before it and at most 100
  after it. `RoundTrip.ValidYetUnsplittable` names such a path, and
  `RoundTrip.PrintsUnlessUnsplittable` says that this is the only way in which
  printing valid files fails.
- An accepted run or init report does not always project cleanly. The acceptors
  decode records through serde, which also takes a JSON array in place of an
  object; the projection insists on objects. `Agreement.ArrayBuildWithheld` and
  `Agreement.ArrayDetailsHidden` give accepted reports that are withheld or shown
  in part, whatever the reader and the execution, and `Agreement.RunAgrees` and
  `Agreement.InitAgrees` give the exact condition.
- A well-indented block under a fresh key leaves the launchctl reading unchanged
  unless its key is `pid`, `last exit code` or `last terminating signal`. Those
  fields may be absent, so the block supplies a value and the text is rejected
  (`Launchd.InsertBlock`). `LaunchdGrammar.PidBlockRejected` and
  `LaunchdGrammar.OptionalBlockRejected` give accepted texts that such a block
  turns away.
- An export that is refused may have been published: when the hard link takes
  effect but is reported as an error, the code answers with a plain output error
  instead of the uncertain one. `Publication.RefusedYetPublished` gives such a run
  and `Publication.RefusedExact` shows that this is the only way.
- The last chunk of a chunked body may be written with one to eight zeros, not
  only with one (`Chunked.ChunksExact`, `Chunked.LastIsZeros`).

## Model

| member | source | states |
|---|---|---|
| ArchiveRules.ArchiveExact | src/artifact/verify.rs:73-283 | Arbitrary bytes are accepted if and only if they are a bounded, intact gzip member whose stream is a manifest part, a signature part when there is one, file parts that are the inventory up to order with path, size, mode and hash, two zero blocks, and at most 1 MiB of zeros, under a trust setting that fits |
| ArchiveRules.ToldAccepted | src/artifact/verify.rs:166-283 | Then the sink gets the manifest and the files in their order in the archive, byte for byte, and the report carries both hashes, the file count and the byte sum |
| ArchiveRules.DeliveryBounded | src/artifact/verify.rs:103-105 | However large the decompressed stream, the sink is given no more bytes than the limit |
| RoundTrip.ArchiveRoundTrip | src/artifact/build.rs:540-638 | Whatever the writer prints for a valid manifest, an optional signature and its staged files, the verifier accepts under every trust setting that fits the signature; the sink gets that manifest and exactly those files, in order, with path, mode and bytes, and the report carries the file count and byte sum |
| RoundTrip.StreamReads | src/artifact/verify.rs:106-246 | Reading the printed stream back, from the manifest entry to the two end blocks, recovers manifest text, signature and the ordered payload |
| RoundTrip.FilesRead | src/artifact/verify.rs:176-223 | The payload loop over any list of printed files delivers all of them in order and stops at the end blocks with an empty inventory |
| RoundTrip.EntryReads | src/artifact/build.rs:576-590 | The header in front of any printed entry reads back, with the data and padding next in the stream |
| RoundTrip.PrintsUnlessUnsplittable | src/artifact/build.rs:591-626 | Printing validated files fails if and only if some path has no legal cut |
| RoundTrip.ValidYetUnsplittable | src/artifact/types.rs:87-161 | A concrete path that validation accepts and the header writer cannot print, for every lower-casing that leaves its own lower-case text alone |
| Soundness.VerifierSound | src/artifact/verify.rs:166-246 | On arbitrary bytes, acceptance means: valid manifest, signature checked when a key is given, every inventoried file delivered exactly once with its inventoried size and hash, counts equal to the inventory's, only zeros after the end |
| Soundness.FilesShape | src/artifact/verify.rs:176-223 | Whatever the bytes and the outcome, the sink's payload calls are complete genuine files followed by at most one that breaks off |
| Soundness.ChunksConcatenate | src/artifact/verify.rs:193-207 | The chunks of a file are its bytes in order, none empty and none over 32768 bytes |
| Soundness.InventoryOrder | src/artifact/types.rs:162-262 | Manifest validation does not depend on the order in which files are listed |
| Verifier.VerifyInner | src/artifact/verify.rs:73-283 | Result and sink log equal the transcript up to the sink's first refusal, for every sink that may refuse any call |
| Verifier.VerifyFile | src/artifact/verify.rs:176-217 | One entry: announced, passed on and hashed chunk by chunk, finished only once hash and padding are right; on failure the log is exactly what was offered before it |
| Verifier.ReadHeader | src/artifact/verify.rs:306-382 | Agrees with the block parser, whose accepted blocks `HeaderRules.HeaderExact` gives, on result and error, and consumes exactly one block, or two at the end |
| HeaderRules.HeaderExact | src/artifact/verify.rs:306-382 | A block is read as a header if and only if its type flag, magic, version and zero areas are the literal ones, every numeric field is octal digits between blanks, the checksum field holds the sum of all 512 bytes with its own eight as spaces, size and mode are allowed, and the name is the two padded UTF-8 fields joined |
| HeaderRules.HeaderErrors | src/artifact/verify.rs:321-381 | Which refused block gets which error |
| HeaderRules.OneByteRejected | src/artifact/verify.rs:339-352 | Changing any one byte of an accepted block outside the checksum field makes it rejected |
| UstarHeader.HeaderRoundTrip | src/artifact/verify.rs:306-382 | Every header written for a valid path reads back as exactly that path, size and mode, and is never all zero |
| UstarHeader.CutExact | src/artifact/build.rs:591-604 | The name/prefix split fails exactly when the path is over 100 bytes and no slash leaves at most 155 before and 100 after; otherwise the two fields rejoin to the path |
| UstarHeader.OctalRoundTrip | src/artifact/build.rs:627-638 | `octal` inverts `write_octal` for every value that fits its field |
| UstarHeader.OctalExact | src/artifact/verify.rs:383-395 | `octal` accepts exactly blanks, octal digits, blanks with a value below 2^64, no digits meaning zero |
| UstarHeader.CStringExact | src/artifact/verify.rs:396-406 | `c_string` accepts exactly a UTF-8 text without NULs, padded with NULs |
| UstarHeader.ChecksumFits | src/artifact/build.rs:617-622 | The byte sum of any block is below 8^6, so the checksum width error cannot occur |
| UstarHeader.LayoutBody | src/artifact/build.rs:591-626 | Prescribing every field of the format determines the printed block: there is only one |
| UstarHeader.TarHeader | src/artifact/build.rs:591-626 | Filling the array in place fails exactly when there is no legal cut or a number has no room, and otherwise leaves that one block |
| UstarHeader.WriteOctal | src/artifact/build.rs:627-638 | Writes its field completely or not at all and touches nothing else of the block |
| PrinterRules.HeaderPrinted | src/artifact/build.rs:591-638 | The printed header of a path, size and mode is the one block with the name cut at its last legal slash, NUL-padded names, zero-filled octal numbers, the block's sum as checksum and everything else literal; there is none exactly when the path has no cut or a number no room |
| PrinterRules.ArchivePrinted | src/artifact/build.rs:540-590 | The printed archive is manifest, signature and files in order, each its header block and its bytes with zeros up to the next block, and two zero blocks |
| Printer.WriteArchive | src/artifact/build.rs:540-575 | Succeeds exactly when all headers exist, every staged file still has its recorded size and, where one is recorded, hash, and the compressed stream fits the budget; then the output is the compressed archive in full; INPUT_CHANGED only for a staged file that differs |
| Printer.ArchiveWriter.Write | src/artifact/build.rs:640-656 | The budget is spent by exactly the bytes passed on and never underflows |
| ManifestRules.ManifestExact | src/artifact/types.rs:162-262 | A manifest is accepted if and only if it satisfies the rules in full: literal product, platform and supplier fields, paths by the rules below, sizes, hashes, modes, no file twice or under another, the five required files, executable launchers and the named engine and Java |
| ManifestRules.SpecificationExact | src/artifact/types.rs:162-206 | A build specification without an inventory gets the field checks alone, with their errors |
| ManifestRules.PathExact | src/artifact/types.rs:87-160 | A path is valid exactly under the literal rules on characters, components, roots, forbidden names and endings, and only the last two give the forbidden error |
| TextRules.Utf8Exact | src/artifact/verify.rs:396-406 | The byte-wise check of UTF-8 accepts exactly the encodings of Unicode scalars |
| TextRules.TrimmedExact | src/artifact/types.rs:82-84 | The byte-wise trim check holds exactly when neither the first nor the last scalar is white space |
| TextRules.ControlExact | src/artifact/types.rs:82-84 | A control character is found exactly where a scalar is one |
| TextRules.DecimalExact | src/config/network.rs:562-593 | The decimal text of an index or port is its digits without a zero in front |
| Inventory.VerdictExact | src/artifact/types.rs:162-262 | The one-pass validation accepts exactly the manifests that satisfy the quantified, order-free rules |
| Inventory.ValidateManifest | src/artifact/types.rs:162-262 | The loops over a path table give that verdict, error codes and their precedence included |
| Inventory.FirstFaultExact | src/artifact/types.rs:206-220 | A prefix of the entries raises no fault if and only if the rules hold of that prefix |
| Inventory.ParentConflict | src/artifact/types.rs:221-232 | Looking up each prefix before a slash finds a conflict exactly when some file is another file's directory |
| Inventory.ValidPathShape | src/artifact/types.rs:87-161 | A validated path is a bounded relative name below an allowed root |
| Paths.PrefixJoin | src/install.rs:490-511 | Joining the first components is the text prefix at that slash, which is what the nested prefix loop visits |
| Aliases.RejectInventoryAliases | src/install.rs:490-511 | The nested loop succeeds if and only if folding is injective on all files and ancestor directories and no path is listed twice or as both kinds, for an arbitrary folding function |
| Aliases.RefusedCollides | src/install.rs:490-511 | Each refused name is a genuine collision in the inventory |
| Aliases.AliasOrder | src/install.rs:490-511 | The verdict is the same for every listing order |
| InitProtocol.MutualExclusion | src/engine/instance_fs.rs:332-444 | In every world of every run at most one engine child is alive, nobody passes `lock` while one is, and whoever is past the lock while a child lives is its spawner and can spawn no more |
| InitProtocol.IntentBeforeSpawn | src/engine/instance.rs:713-742 | A child starts only when the durable journal holds InitIntent for its attempt, and no earlier child ran that attempt |
| InitProtocol.OneFreshInit | src/engine/instance.rs:677-712 | A fresh init child is spawned at most once in an instance's life, before every other; attempts never repeat |
| InitProtocol.DurableStates | src/engine/instance.rs:498-536 | Every durable state passes the checks of `load`, and Initialized stands only for an attempt whose own process exited with 0 and passed validation, with that genesis hash |
| InitProtocol.JournalMoves | src/engine/instance.rs:672-787 | The durable state moves only along the protocol's edges: intent before outcome, a new attempt for every resumption |
| InitProtocol.InitializedAbsorbs | src/engine/instance.rs:677-712 | Once Initialized, the record never changes again and nothing is spawned |
| InitProtocol.Invariant | src/engine/managed.rs:72-200 | The inductive invariant over descriptors, lock, callers, children, journal and attempts holds in every world of every run |
| InitProtocol.LiveKid | src/engine/managed.rs:96-128 | While a child lives, only its spawner can be past the lock, waiting for it or having given up on it |
| InitProtocol.Initialize | src/engine/instance.rs:672-787 | Every execution, with any interference, is a stretch of a run with a decided outcome: Busy exactly when the lock was held, WrongPhase exactly when the journal read was not Registered (init) or was Registered or Initialized (resume), otherwise the judgement that the child earned, if it was published as the final record; refusals before the intent touch neither journal nor engine |
| InitProtocol.Enter | src/engine/instance.rs:677-688 | The two refusals at the door, each with its exact condition in the world it looked at |
| InitProtocol.Operate | src/engine/managed.rs:72-200 | Spawning and waiting, however it ends, leaves the caller with a judged outcome |
| InitRuns.Recoverable | src/engine/instance.rs:672-787 | From every world of every run short of Initialized, whoever stopped in it and wherever, some continuation initializes the instance: fresh from Registered, by resuming from an intent or an unknown outcome |
| InitRuns.Completes | src/engine/instance.rs:677-787 | Once the lock is free, one new caller and its child suffice for that, with the attempt and the genesis it brings |
| InitRuns.Drains | src/engine/instance_fs.rs:332-444 | Whatever the run, the callers past the lock may return and a living child may end, after which the lock is free and the journal as it was |
| InitProtocol.MayStep | src/engine/instance.rs:713-787 | No failure is ruled out: every outcome of a save, every end of a child, giving up and stopping anywhere are possible steps |
| InitRuns.LockExact | src/engine/instance_fs.rs:332-444 | In every world of every run the lock is free exactly when no child lives and no caller stands between `lock` and its return |
| InitRuns.SavesExact | src/engine/instance.rs:713-787 | What each save does to the journal and to its caller, lost and unheard saves included; nothing else touches the journal |
| Install.Install | src/install.rs:81-98 | Succeeds exactly when the archive is accepted, its target and names are for this host, and no operation failed; in every state that a crash can leave, the receipt name exists only over a complete verified tree; success means the sealed tree and the verifier's report |
| Install.AcceptedCalls | src/install.rs:374-443 | The calls of an accepted verification unpack to exactly the inventoried files with their sizes and hashes |
| Install.NeverRefused | src/install.rs:374-443 | Without a failing operation the installer refuses no payload call of an accepted transcript: no name is taken, none is a directory on the way to another |
| Install.TranscriptCallable | src/install.rs:374-391 | For any bytes, the first call is `begin` and no later file path is one of the installer's own names |
| Installer.RecordNames | src/install.rs:324-345 | The records that an installation leaves beside the payload, by name and mode |
| Installer.FeedFiles | src/install.rs:392-443 | The calls for any list of files unpack exactly that list |
| Installer.Unpacker.Commit | src/install.rs:292-373 | In every state passed through, the receipt exists only over all files with verified bytes and final modes; success, which only a failing operation or a wrong count prevents, leaves the sealed tree and nothing else |
| Installer.Unpacker.Confirm | src/install.rs:356-373 | After the link, a failure withdraws the receipt unless a second operation fails too, and then it stands over the complete tree |
| Installer.Unpacker.Handle | src/install.rs:374-443 | Each sink call moves the tree and the record of files in step, or fails without publishing anything; it fails only for a failing operation, an unfit manifest, a call out of turn or a path that is not fresh |
| Installer.LinkCompletes | src/install.rs:344-355 | The hard link makes the receipt appear over a tree that is already complete |
| InstalledTree.Scan | src/install/installed.rs:210-222 | The scan accepts a directory tree if and only if its set of paths is the expected one and every kind, mode, size and hash matches |
| InstalledTree.Walk | src/install/installed.rs:223-295 | The recursive walk succeeds exactly when everything below is expected and matches, and records each path once |
| InstalledTree.FlatApart | src/install/installed.rs:223-295 | Different entries of a directory share no path, which makes counting paths exact |
| InstalledRules.InstalledExact | src/install/installed.rs:72-209 | The accepted trees, path by path: the three records under their literal names, modes, limits and contents, every inventoried file with mode, size, hash and one link, a private directory for every ancestor, and no other path |
| Reverify.VerifyInstalled | src/install/installed.rs:72-209 | Accepts a tree exactly when it is the reported package with its manifest, signature and receipt: whole, unmodified and alone |
| Reverify.CommittedVerifies | src/install/installed.rs:144-208 | Re-verification accepts the tree that a successful installation leaves, under the report it returned |
| Reverify.BuildInventory | src/install/installed.rs:144-175 | The loop expects exactly every file and a directory for every ancestor |
| Publication.Outcomes | src/engine/diagnostic_io.rs:196-225 | In every world of every run: success or doubt means the whole export stands at its destination, refusal means it was never linked or its link was reported as an error although it took effect, and a destination has at most one publisher |
| Publication.RefusedExact | src/engine/diagnostic_io.rs:275-291 | A refused export stands at its destination if and only if its link took effect and was reported as an error |
| Publication.RefusedYetPublished | src/engine/diagnostic_io.rs:275-291 | Such a refusal happens, in any directory with both names free and for any export within the limit |
| Publication.SuccessKept | src/engine/diagnostic_io.rs:196-225 | Once published, an export keeps its bytes at its destination for the rest of the run |
| Publication.NeverReplaced | src/engine/diagnostic_io.rs:275-306 | A published export, or any file from before, keeps its bytes under its name for ever |
| Publication.AppearsComplete | src/engine/diagnostic_io.rs:275-291 | A destination goes from absent to one exporter's complete bytes in one step |
| Publication.PrivateStays | src/engine/diagnostic_io.rs:292-301 | A private temporary name never becomes a published one |
| PublicationRuns.SmoothSucceeds | src/engine/diagnostic_io.rs:196-225 | An export to which nothing happens, and whose destination is free when it looks and when it links, can only end in success |
| PublicationRuns.UncertainOnly | src/engine/diagnostic_io.rs:208-223 | A doubt is left only by a failure after the exporter's own link |
| PublicationRuns.SucceedsAlone | src/engine/diagnostic_io.rs:196-225 | In any directory with both names free such a run exists; it leaves the whole export under its name and no private one |
| PublicationRuns.Progress | src/engine/diagnostic_io.rs:196-301 | An exporter that has not ended can take a step of its own that is no failure |
| PublicationRuns.Fallible | src/engine/diagnostic_io.rs:196-301 | Until it has ended an exporter may fail or stop anywhere, and its link may take effect unheard |
| Export.WriteExport | src/engine/diagnostic_io.rs:196-225 | Every execution among other exporters is a stretch of a run with a decided outcome: success exactly when the destination was free at both looks, a private name was found and nothing failed; uncertain only after its own link; an oversized export changes nothing |
| JsonShape.ShapeExact | src/config/mod.rs:404-545 | Accepts exactly the documents of RFC 8259 without arrays, with known keys, no decoded key twice in an object and at most eight levels: greedy scanning loses none |
| JsonShape.StrictJsonShape | src/config/mod.rs:404-411 | The cursor-based scanner terminates on every input with the verdict of the specification |
| JsonShape.Scanner.Members | src/config/mod.rs:437-478 | The member loop leaves the cursor exactly where the specification says |
| JsonShape.NumberComplete | src/config/mod.rs:506-545 | Scanning a number as far as possible stops at its end for every number of the grammar that is followed by a delimiter |
| Launchd.InsertBlock | src/engine/launchd.rs:608-726 | A well-indented nested block of any shape under a fresh key leaves the outcome as it was, or rejects the text exactly when the key is one of the three optional fields |
| Launchd.PrintReads | src/engine/launchd.rs:574-726 | Parsing undoes printing for every job state that launchctl may show |
| Launchd.ObserveReads | src/engine/launchd.rs:574-726 | The same on whole command outputs within the limit |
| LaunchdGrammar.ParseExact | src/engine/launchd.rs:608-726 | A state is read exactly from the well-formed descriptions that give it: distinct fields in any order, one list of arguments, blocks nested by indentation within the depth limit, one closing brace, blank lines anywhere |
| LaunchdGrammar.PidBlockRejected | src/engine/launchd.rs:651-683 | The printed description of a job without a process is accepted, and rejected with a `pid` block before its closing brace |
| LaunchdGrammar.OptionalBlockRejected | src/engine/launchd.rs:698-726 | For each key that may be absent, a bare description is accepted, and rejected with a block under that key |
| LaunchdGrammar.NestScan | src/engine/launchd.rs:664-683 | Whatever lines the parser passes inside a block are well-nested lines and the block's own closing brace |
| Launchd.AcceptedShown | src/engine/launchd.rs:684-726 | Whatever the text, an accepted state is consistent: running exactly with a process number, values in range |
| Launchd.ExitCodeExact | src/engine/launchd.rs:727-765 | An exit code reads exactly when it is canonical decimal in 32 bits, alone or with its own sysexits name |
| Launchd.NestFold | src/engine/launchd.rs:664-683 | Nested lines within the depth limit leave the parser's whole state unchanged |
| LaunchdOutcomes.ObserveExact | src/engine/launchd.rs:574-607 | Within the size limits, not loaded exactly on exit 113 with the literal missing-service message for this job and user, no session exactly on exit 112 with the other, loaded only on exit 0 with an empty error stream, nothing on any other exit |
| LaunchdOutcomes.ReadsExactly | src/engine/launchd.rs:574-726 | The grammar by literal texts: which fields, with which values, show which state of this job |
| LaunchdOutcomes.CutAtFirst | src/engine/launchd.rs:657-657 | A field is cut at its first separator and nowhere else |
| LaunchdOutcomes.LinesExact | src/engine/launchd.rs:604-604 | The lines of a text hold no line ends and give the text back, whether or not its last line is ended |
| LaunchdOutcomes.OtherJobRejected | src/engine/launchd.rs:684-726 | A well-formed description with another program, property list or argument list is never read |
| Launchd.ParseObservation | src/engine/launchd.rs:574-726 | The loop over local variables gives that outcome, error cases included |
| Der.TlvExact | src/config/network.rs:681-712 | An element is accepted exactly when the input is its unique minimal-length encoding followed by the rest |
| Der.EnvelopeExact | src/config/network.rs:713-769 | A certificate is accepted exactly when it is the encoding of one of the expected layout, byte for byte |
| Der.EncodingUnique | src/config/network.rs:713-769 | No two certificates share an encoding |
| Der.CertificateEnvelope | src/config/network.rs:713-769 | The loop over a shrinking slice decides exactly that |
| Network.ChainMembers | src/config/network.rs:284-327 | Succeeds exactly when the configuration names a contiguous list of distinct canonical validators, and returns that set |
| Network.ValidatedNetwork | src/config/network.rs:365-445 | Succeeds exactly on networks that satisfy the order-free rules and returns the canonical network |
| NetworkRules.NetworkExact | src/config/network.rs:365-445 | Acceptance by literal rules: each field of each canonical node comes from the field of its name, in lower case where it is hexadecimal, ids, validators and endpoints are distinct, and the validators are the members |
| NetworkRules.ResultExact | src/config/network.rs:365-445 | The result rises by node id and is those canonical nodes with their pins in order, all of them and nothing else |
| NetworkRules.NamesExact | src/config/network.rs:284-327 | Which configurations name members, by literal keys and addresses |
| Network.NodeOrder | src/config/network.rs:365-445 | Neither verdict nor result depends on the order of nodes |
| Network.PinOrder | src/config/network.rs:420-436 | Nor on the order of pins within a node |
| Network.ResultSound | src/config/network.rs:365-445 | An accepted result rises strictly by node id, holds exactly the given nodes, repeats no pin, and its validators are the chain members |
| Peers.PeerKeyInjective | src/config/network.rs:562-593 | Settings of different peers or attributes never share a key |
| Peers.WritePeers | src/config/network.rs:562-593 | The peer loop writes exactly the settings of the other nodes under indices from zero, each key once, and keeps all earlier settings; by literal keys as in the next row |
| Peers.WrittenExact | src/config/network.rs:562-593 | For each peer in order the literal keys for id, validator, role, host, port, permission and every active and revoked pin hold that peer's values, and no other key is added |
| Peers.OthersCount | src/config/network.rs:562-567 | With distinct ids there is exactly one peer fewer than there are nodes |
| Peers.OthersAre | src/config/network.rs:562-567 | The peers are exactly the nodes of the network other than the local one |
| Peers.LeadingClear | src/config/network.rs:503-561 | None of the settings that `load` makes before the peers uses a key of a peer setting |
| Acceptors.ValidateReport | src/engine/runtime_result.rs:106-226 | The loop over lines gives the result of the automaton, refusals included |
| ReportRules.AcceptedTold | src/engine/runtime_result.rs:106-226 | A run report is accepted if and only if it is at most 32768 bytes of complete lines, each a row of this execution of at most 8192 bytes with the literal words and details of its place, and guard and record are the literal ones; the starting row names the expected backend |
| ReportRules.AcceptedReport | src/engine/runtime_result.rs:106-226 | What is then reported: status and reason of the last row, their number, and the instance named by the third row if it runs |
| ReportRules.InitAccepted | src/engine/init_result.rs:109-156 | An initialization is accepted with a genesis if and only if standard output, the three literal rows, in object or array form, and the engine's record all tell of it |
| ReportRules.AllowedExact | src/engine/diagnostic_events.rs:143-218 | The rows whose words the projection may repeat, by literal words, keys and values |
| ReportRules.ProjectTold | src/engine/diagnostic_events.rs:51-139 | The whole projection by literal rules: the first sixteen complete rows shown or counted, one more for a remainder, anything else withheld |
| Acceptors.FollowsCourse | src/engine/runtime_result.rs:139-226 | An accepted report is a prefix of the one course checking, starting, running, stopping, stopped, and may leave it only in its last row; it never has more than five rows |
| Acceptors.ReportExact | src/engine/runtime_result.rs:106-226 | A run report is accepted if and only if its guard holds, each line is a row of this execution with the details of its kind, and the kinds follow the course, which the last row alone may leave |
| Acceptors.InstanceReported | src/engine/runtime_result.rs:158-181 | The reported node instance is the one that the running row names |
| Reports.ProjectReport | src/engine/diagnostic_events.rs:51-139 | The loop over the remaining input equals the projection of its rows |
| Reports.ProjectShows | src/engine/diagnostic_events.rs:51-139 | The events are exactly the allowed rows that follow only rows with fitting headers, in order |
| Reports.Counted | src/engine/diagnostic_events.rs:51-139 | Events plus omissions are the rows read plus one for an unread remainder; partial holds exactly when something was omitted |
| Reports.PrefixEvents | src/engine/diagnostic_events.rs:51-139 | The events of any byte prefix are a prefix of the events of the whole |
| Reports.NothingAfterBreak | src/engine/diagnostic_events.rs:94-120 | After a broken header nothing more is shown, however the report goes on |
| Agreement.RunProjected | src/engine/runtime_result.rs:106-226 | The projection of an accepted run report, in full: one event per row, without the first row exactly when its build identity is not an object |
| Agreement.RunAgrees | src/engine/diagnostic_events.rs:51-139 | An accepted run report projects without omission if and only if its build identity is an object |
| Agreement.RunLast | src/engine/runtime_result.rs:106-226 | The last event carries the accepted sequence, status and reason |
| Agreement.InitAgrees | src/engine/init_result.rs:109-156 | An accepted init or resume report projects cleanly to its three rows if and only if each record in it is an object |
| Agreement.InitProjected | src/engine/init_result.rs:109-156 | The projection of an accepted init report, in full |
| Agreement.ArrayBuildWithheld | src/engine/runtime_result.rs:150-157 | For any reader and any execution, the report with one checking row whose build identity is an array is accepted, and the projection withholds it |
| Agreement.ArrayDetailsHidden | src/engine/init_result.rs:109-156 | For any reader and any execution, an init or resume report with its starting details as an array is accepted, and the projection shows only the other two rows |
| Agreement.LinesAreRows | src/engine/runtime_result.rs:139-142 | Splitting at newlines without the last one and reading complete rows see the same lines |
| Chunked.ChunksExact | src/engine/runtime_http.rs:140-167 | A body is decoded exactly from its framings, with one to eight hexadecimal digits of either case as sizes, and only up to 262144 bytes |
| Chunked.DecodesFraming | src/engine/runtime_http.rs:140-167 | Every framing decodes to its body, or is refused when the body is over the limit |
| Chunked.ChunkRoundTrip | src/engine/runtime_http.rs:140-167 | Decoding undoes chunked encoding of any non-empty pieces within the limit |
| Chunked.LastIsZeros | src/engine/runtime_http.rs:147-160 | The terminating size is any run of zeros |
| Chunked.Chunks | src/engine/runtime_http.rs:140-167 | The loop keeps a non-negative budget, terminates and computes the decoding |

## Left out

- Compression, SHA-256, Ed25519, base64, PEM, serde and string-token decoding: parameters or opaque functions; the gzip round trip is a hypothesis of `ArchiveRoundTrip`, and serde's array form of a record is kept where it matters.
- RoundTrip.ArchiveRoundTrip: assumes that the compressed archive fits the archive limit, which `WriteArchive` enforces before it succeeds.
- Install.Install: the installer handles the sink's calls after the verifier made them all, up to its first refusal, rather than one by one in between; the two touch separate state.
- Install.Install: `new`, the creation of the root directory and its anchor checks are one step that may fail.
- Printer.WriteArchive: the compressor's output meets the budget at the end, so which of two errors comes first is not modelled when a file changed and the budget is exceeded.
- Reverify.CommittedVerifies: assumes that receipts read back as written and fit their limit, since their JSON is not modelled.
- JsonShape.ShapeExact: assumes that the string decoder accepts only string tokens of the grammar.
- Launchd.ObserveReads: for text without carriage returns; the parser's own rejection of them is modelled.
- Reading the staged tree (`collect_stage`, `stream_stage_file`), output creation in `build`, and the rechecks of inode, size and time stamps between steps: a staged file is its entry and bytes, and a changed one is an error.
- Durability order of writes: a crash leaves one of the recorded states; `fsync` failures are failures of the operation they follow.
- Reuse of inode numbers, and interference with the tree by other processes of the same user during installation or re-verification.
- The verifier without a sink is the verifier with a sink that refuses nothing.
- Process spawning, output capture, timeouts and signals: an engine child ends at any time with any status, and a caller may give up at any time.
- The values of the settings that precede the peers in `load`, the path checks of `data_precondition` and `prepare_data`, and the rest of instance registration.
- Header parsing of HTTP responses (`parse`), `clean_absolute`, `xml_escape`, `is_stopped`, `summary`: read off their bodies.
- The service start and stop journal, the revisioned store behind `save`, `setup_plan`, `bundle`, the health table and the command line.
