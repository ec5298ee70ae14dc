/** Engine reports, rule by rule. */
module ReportRules {
  import opened Prelude
  import opened TextRules
  import opened Reports
  import opened Acceptors
  import opened Agreement

  // src/engine/runtime_result.rs (`validate_report`), src/engine/init_result.rs
  // (`validate_success`) and src/engine/diagnostic_events.rs (`allowed`), by literal
  // texts: what each row must say, and which rows make an acceptable report.

  // ------------------------------------------------------------------- words

  predicate AttemptText(a: bytes) {
    1 <= |a| <= 80
    && forall b <- a :: 0x30 <= b <= 0x39 || 0x41 <= b <= 0x5A || 0x61 <= b <= 0x7A || b == 0x5F || b == 0x2D
  }

  predicate PrefixedHex(s: bytes, n: nat) {
    |s| >= 2 && s[..2] == Ascii("0x") && HexText(s[2..], n)
  }

  /** A version 4 UUID: eight, four, four, four and twelve digits. */
  predicate UuidText(s: bytes) {
    && |s| == 36 && HexText(s[..8], 8) && HexText(s[9..13], 4) && HexText(s[14..18], 4) && HexText(s[19..23], 4)
    && HexText(s[24..], 12) && s[8] == 0x2D && s[13] == 0x2D && s[18] == 0x2D && s[23] == 0x2D
    && s[14] == 0x34 && (s[19] == 0x38 || s[19] == 0x39 || s[19] == 0x61 || s[19] == 0x62)
  }

  predicate NodeText(s: bytes) {
    s == Ascii("INSTANT")
    || (|s| > 67 && PrefixedHex(s[..66], 64) && s[66] == 0x3A
        && (s[67..] == Ascii("OBSERVER") || PrefixedHex(s[67..], 40)))
  }

  predicate BackendText(s: bytes) {
    s == Ascii("rocksdb") || s == Ascii("h2")
  }

  lemma AttemptIs(a: bytes)
    ensures AttemptShape(a) <==> AttemptText(a)
  {
    if AttemptText(a) {
      forall i | 0 <= i < |a|
        ensures IsDigit(a[i]) || 0x41 <= a[i] <= 0x5A || 0x61 <= a[i] <= 0x7A || a[i] == 0x5F || a[i] == 0x2D
      {
        assert a[i] in a;
      }
    }
  }

  lemma PrefixedIs(s: bytes, n: nat)
    ensures PrefixedHex(s, n) <==> |s| == n + 2 && s[0] == 0x30 && s[1] == 0x78 && IsHash(s[2..], n)
  {
    if |s| >= 2 {
      HashIs(s[2..], n);
      assert s[..2] == [s[0], s[1]];
    }
    assert Ascii("0x") == [0x30, 0x78];
  }

  lemma Hash0xIs(s: bytes)
    ensures Hash0x(s) <==> PrefixedHex(s, 64)
  {
    PrefixedIs(s, 64);
  }

  lemma NodeIs(s: bytes)
    ensures NodeIdentity(s) <==> NodeText(s)
  {
    if |s| > 66 {
      Hash0xIs(s[..66]);
      PrefixedIs(s[67..], 40);
      if |s| > 69 {
        assert s[67..][2..] == s[69..];
      }
    }
    assert |Ascii("OBSERVER")| == 8;
    hide Hash0x, PrefixedHex, IsHash, HexText, Ascii;
  }

  predicate Group(s: bytes, i: nat, j: nat)
    requires i <= j <= |s|
  {
    forall k :: i <= k < j ==> LowerHex(s[k])
  }

  lemma UuidIs(s: bytes)
    ensures Uuid(s) <==> UuidText(s)
  {
    if |s| == 36 {
      assert s[0..8] == s[..8] && s[24..36] == s[24..];
      GroupIs(s, 0, 8);
      GroupIs(s, 9, 13);
      GroupIs(s, 14, 18);
      GroupIs(s, 19, 23);
      GroupIs(s, 24, 36);
      UuidGroups(s);
      hide HexText, LowerHex, Group;
    }
  }

  lemma UuidGroups(s: bytes)
    requires |s| == 36
    ensures Uuid(s) <==>
              Group(s, 0, 8) && Group(s, 9, 13) && Group(s, 14, 18) && Group(s, 19, 23) && Group(s, 24, 36)
              && s[8] == 0x2D && s[13] == 0x2D && s[18] == 0x2D && s[23] == 0x2D
              && s[14] == 0x34 && s[19] in [0x38, 0x39, 0x61, 0x62]
  {
    hide LowerHex;
  }

  lemma GroupIs(s: bytes, i: nat, j: nat)
    requires i <= j <= |s|
    ensures HexText(s[i..j], j - i) <==> Group(s, i, j)
  {
    var t := s[i..j];
    HashIs(t, j - i);
    assert forall k :: i <= k < j ==> s[k] == t[k - i];
    if IsHash(t, j - i) {
      forall k | i <= k < j ensures LowerHex(s[k]) {
        assert t[k - i] == s[k];
      }
    }
  }

  // ----------------------------------------------------------------- details

  /** An object with these keys and no other. */
  predicate Keys(v: Value, names: set<bytes>) {
    v.Object? && v.fields.Keys == names
  }

  predicate FieldIs(v: Value, name: string, w: Value) {
    v.Object? && Ascii(name) in v.fields && v.fields[Ascii(name)] == w
  }

  predicate FieldFlag(v: Value, name: string) {
    v.Object? && Ascii(name) in v.fields && v.fields[Ascii(name)].Flag?
  }

  predicate FieldText(v: Value, name: string, ok: bytes -> bool) {
    v.Object? && Ascii(name) in v.fields && v.fields[Ascii(name)].Text? && ok(v.fields[Ascii(name)].text)
  }

  predicate Says(row: Row, status: string, reason: string) {
    row.status == Ascii(status) && row.reason == Ascii(reason)
  }

  const RUN_NAMES: set<bytes> := {
    Ascii("genesisHash"), Ascii("chainFingerprint"), Ascii("nodeIdentity"), Ascii("nodeInstanceId"),
    Ascii("networkQuorumVerified")}
  const CLOSE_NAMES: set<bytes> := {Ascii("storageClosed"), Ascii("consensusStopReturned")}

  // -------------------------------------------------------- rows of a run report

  predicate SaysChecking(reader: Reader, row: Row) {
    && Says(row, "CHECKING", "VALIDATING_CONFIGURATION") && Keys(row.details, {Ascii("build")})
    && Ascii("build") in row.details.fields && reader.identifies(row.details.fields[Ascii("build")])
  }

  predicate SaysStarting(e: Expected, row: Row) {
    && Says(row, "STARTING", "OPENING_MANAGED_STORAGE") && Keys(row.details, {Ascii("backend")})
    && FieldIs(row.details, "backend", Text(e.backend))
  }

  predicate SaysRunning(e: Expected, genesis: bytes, row: Row) {
    && Says(row, "RUNNING", "LOCAL_STARTUP_COMPLETED") && Keys(row.details, RUN_NAMES)
    && FieldIs(row.details, "genesisHash", Text(genesis)) && FieldIs(row.details, "chainFingerprint", Text(e.chain))
    && FieldIs(row.details, "nodeIdentity", Text(e.node)) && FieldIs(row.details, "networkQuorumVerified", Flag(false))
    && FieldText(row.details, "nodeInstanceId", UuidText)
  }

  predicate SaysStopping(row: Row) {
    Says(row, "STOPPING", "SHUTDOWN_REQUESTED") && Keys(row.details, {})
  }

  predicate SaysStopped(row: Row) {
    && Says(row, "STOPPED", "STORAGE_AND_CONSENSUS_CLOSED") && Keys(row.details, CLOSE_NAMES)
    && FieldIs(row.details, "storageClosed", Flag(true)) && FieldIs(row.details, "consensusStopReturned", Flag(true))
  }

  predicate SaysFailed(row: Row) {
    && Says(row, "FAILED", "STARTUP_OR_INITIALIZATION_FAILED") && Keys(row.details, {Ascii("resultMayBePartial")})
    && FieldIs(row.details, "resultMayBePartial", Flag(true))
  }

  predicate BothFlags(row: Row) {
    && Keys(row.details, CLOSE_NAMES) && FieldFlag(row.details, "storageClosed")
    && FieldFlag(row.details, "consensusStopReturned")
  }

  predicate SaysUnknown(row: Row) {
    || (Says(row, "UNKNOWN", "CLOSE_OR_REPORT_FAILURE") && Keys(row.details, {}))
    || (Says(row, "UNKNOWN", "REPORT_FAILURE") && BothFlags(row))
    || (Says(row, "UNKNOWN", "CLOSE_NOT_CONFIRMED") && BothFlags(row)
        && !(FieldIs(row.details, "storageClosed", Flag(true)) && FieldIs(row.details, "consensusStopReturned", Flag(true))))
  }

  /** What the row at this place of an undisturbed run says. */
  predicate SaysCourse(reader: Reader, e: Expected, genesis: bytes, row: Row, index: nat) {
    match index
    case 0 => SaysChecking(reader, row)
    case 1 => SaysStarting(e, row)
    case 2 => SaysRunning(e, genesis, row)
    case 3 => SaysStopping(row)
    case 4 => SaysStopped(row)
    case _ => false
  }

  predicate SaysLast(reader: Reader, e: Expected, genesis: bytes, row: Row, index: nat) {
    || SaysCourse(reader, e, genesis, row, index)
    || (index >= 1 && SaysFailed(row))
    || (3 <= index <= 4 && SaysUnknown(row))
  }

  predicate HeaderSays(row: Row, command: bytes, e: Expected, sequence: nat) {
    && row.attempt == e.attempt && row.pid == e.pid && row.command == command
    && row.sequence == sequence && row.contract == Ascii("PROPOSED")
  }

  predicate LineSays(reader: Reader, command: bytes, e: Expected, line: bytes, sequence: nat) {
    1 <= |line| <= 8192 && reader.decode(line).Some? && HeaderSays(reader.decode(line).value, command, e, sequence)
  }

  predicate CourseLine(reader: Reader, e: Expected, genesis: bytes, line: bytes, index: nat) {
    && LineSays(reader, Ascii("run"), e, line, index + 1)
    && SaysCourse(reader, e, genesis, reader.decode(line).value, index)
  }

  predicate LastLine(reader: Reader, e: Expected, genesis: bytes, line: bytes, index: nat) {
    && LineSays(reader, Ascii("run"), e, line, index + 1)
    && SaysLast(reader, e, genesis, reader.decode(line).value, index)
  }

  /** The rows decode and belong to this execution, and together tell one run. */
  predicate RunTold(reader: Reader, e: Expected, genesis: bytes, lines: seq<bytes>) {
    && 1 <= |lines| <= 5
    && (forall i :: 0 <= i < |lines| - 1 ==> CourseLine(reader, e, genesis, lines[i], i))
    && LastLine(reader, e, genesis, lines[|lines| - 1], |lines| - 1)
  }

  /** Lines without line ends, each followed by one. */
  predicate Terminated(raw: bytes, lines: seq<bytes>) {
    if lines == [] then raw == []
    else
      var n := |lines[0]|;
      n < |raw| && raw[..n] == lines[0] && raw[n] == 0x0A && 0x0A !in lines[0] && Terminated(raw[n + 1..], lines[1..])
  }

  predicate ExecutionTold(codec: Codec, journal: bytes, e: Expected, genesis: bytes) {
    && e.available && BackendText(e.backend) && HexText(e.chain, 64) && NodeText(e.node)
    && 1 <= |e.directory| && e.directory[0] == 0x2F && e.pid != 0 && AttemptText(e.attempt)
    && PrefixedHex(genesis, 64) && 1 <= |journal| <= 8192
    && codec.journal(journal)
       == Some(Journal(Ascii("INITIALIZED"), e.backend, e.chain, e.node, e.directory, genesis))
  }

  /** The report of a run, whose rows are these lines. */
  predicate ReportTold(codec: Codec, raw: bytes, journal: bytes, e: Expected, genesis: bytes, lines: seq<bytes>) {
    && ExecutionTold(codec, journal, e, genesis) && |raw| <= 32_768 && Terminated(raw, lines)
    && RunTold(codec.reader, e, genesis, lines)
  }

  // ---------------------------------------------------- the words of each kind

  /** Length and first letter tell the reasons apart. */
  function Mark(k: Kind): (nat, char) {
    match k
    case Checking => (24, 'V')
    case Starting => (23, 'O')
    case Initialized => (14, 'S')
    case Running => (23, 'L')
    case Stopping => (18, 'S')
    case Stopped => (28, 'S')
    case Failed => (32, 'S')
    case ReportFailure => (14, 'R')
    case NotConfirmed => (19, 'C')
    case CloseOrReport => (23, 'C')
  }

  lemma MarkIs(k: Kind)
    ensures |ReasonOf(k)| == Mark(k).0 && ReasonOf(k)[0] == Mark(k).1 as int
  {
  }

  lemma KindExact(k: Kind, status: bytes, reason: bytes)
    ensures KindOf(status, reason) == Some(k) <==> Is(k, status, reason)
  {
    hide StatusOf, ReasonOf;
    KindIs(status, reason);
    if Is(k, status, reason) {
      MarkIs(k);
      MarkIs(KindOf(status, reason).value);
    }
  }

  // --------------------------------------------------- kinds and what they say

  lemma CheckingIs(reader: Reader, e: Expected, genesis: bytes, row: Row)
    ensures Is(Checking, row.status, row.reason) && DetailsAre(reader, e, genesis, Checking, row.details) <==>
            SaysChecking(reader, row)
  {
    hide Ascii;
  }

  lemma StartingIs(reader: Reader, e: Expected, genesis: bytes, row: Row)
    ensures Is(Starting, row.status, row.reason) && DetailsAre(reader, e, genesis, Starting, row.details) <==>
            SaysStarting(e, row)
  {
    hide Ascii;
  }

  lemma RunningIs(reader: Reader, e: Expected, genesis: bytes, row: Row)
    ensures Is(Running, row.status, row.reason) && DetailsAre(reader, e, genesis, Running, row.details) <==>
            SaysRunning(e, genesis, row)
  {
    if FieldText(row.details, "nodeInstanceId", _ => true) {
      UuidIs(row.details.fields[Ascii("nodeInstanceId")].text);
    }
    hide Ascii, Uuid, UuidText;
  }

  lemma StoppingIs(reader: Reader, e: Expected, genesis: bytes, row: Row)
    ensures Is(Stopping, row.status, row.reason) && DetailsAre(reader, e, genesis, Stopping, row.details) <==>
            SaysStopping(row)
  {
    hide Ascii;
  }

  lemma StoppedIs(reader: Reader, e: Expected, genesis: bytes, row: Row)
    ensures Is(Stopped, row.status, row.reason) && DetailsAre(reader, e, genesis, Stopped, row.details) <==>
            SaysStopped(row)
  {
    hide Ascii;
  }

  lemma FailedIs(reader: Reader, e: Expected, genesis: bytes, row: Row)
    ensures Is(Failed, row.status, row.reason) && DetailsAre(reader, e, genesis, Failed, row.details) <==>
            SaysFailed(row)
  {
    hide Ascii;
  }

  lemma UnknownIs(reader: Reader, e: Expected, genesis: bytes, row: Row)
    ensures (exists k :: Unsure(k) && Is(k, row.status, row.reason) && DetailsAre(reader, e, genesis, k, row.details))
            <==> SaysUnknown(row)
  {
    hide Ascii;
    var details := row.details;
    ghost var doubt := [ReportFailure, NotConfirmed, CloseOrReport];
    assert Unsure(doubt[0]) && Unsure(doubt[1]) && Unsure(doubt[2]);
  }

  predicate Tells(reader: Reader, e: Expected, genesis: bytes, row: Row, k: Kind) {
    Is(k, row.status, row.reason) && DetailsAre(reader, e, genesis, k, row.details)
  }

  lemma CourseIs(reader: Reader, e: Expected, genesis: bytes, row: Row, index: nat)
    requires index < 5
    ensures Tells(reader, e, genesis, row, COURSE[index]) <==> SaysCourse(reader, e, genesis, row, index)
  {
    CheckingIs(reader, e, genesis, row);
    StartingIs(reader, e, genesis, row);
    RunningIs(reader, e, genesis, row);
    StoppingIs(reader, e, genesis, row);
    StoppedIs(reader, e, genesis, row);
    hide Is, DetailsAre, SaysChecking, SaysStarting, SaysRunning, SaysStopping, SaysStopped;
  }

  lemma LastIs(reader: Reader, e: Expected, genesis: bytes, row: Row, index: nat)
    requires index < 5
    ensures (exists k :: Tells(reader, e, genesis, row, k) && (k == COURSE[index] || EndsRun(k, index))) <==>
            SaysLast(reader, e, genesis, row, index)
  {
    CourseIs(reader, e, genesis, row, index);
    FailedIs(reader, e, genesis, row);
    UnknownIs(reader, e, genesis, row);
    hide COURSE, Is, DetailsAre, SaysCourse, SaysFailed, SaysUnknown;
    if SaysCourse(reader, e, genesis, row, index) {
      assert Tells(reader, e, genesis, row, COURSE[index]);
    }
    if SaysFailed(row) {
      assert Tells(reader, e, genesis, row, Failed);
    }
    if SaysUnknown(row) {
      var k :| Unsure(k) && Is(k, row.status, row.reason) && DetailsAre(reader, e, genesis, k, row.details);
      assert Tells(reader, e, genesis, row, k);
    }
  }

  lemma LineIs(reader: Reader, e: Expected, genesis: bytes, line: bytes, index: nat, k: Kind)
    ensures RowFits(reader, e, genesis, line, index) && KindAt(reader, line) == Some(k) <==>
            LineSays(reader, Ascii("run"), e, line, index + 1)
            && Tells(reader, e, genesis, reader.decode(line).value, k)
  {
    if reader.decode(line).Some? {
      KindExact(k, reader.decode(line).value.status, reader.decode(line).value.reason);
    }
    hide Ascii, KindOf, Is, DetailsAre;
  }

  lemma CourseLineIs(reader: Reader, e: Expected, genesis: bytes, line: bytes, index: nat)
    requires index < 5
    ensures RowFits(reader, e, genesis, line, index) && KindAt(reader, line) == Some(COURSE[index]) <==>
            CourseLine(reader, e, genesis, line, index)
  {
    LineIs(reader, e, genesis, line, index, COURSE[index]);
    if LineSays(reader, Ascii("run"), e, line, index + 1) {
      CourseIs(reader, e, genesis, reader.decode(line).value, index);
    }
    hide COURSE, RowFits, KindAt, SaysCourse, Tells;
  }

  predicate Ends(reader: Reader, line: bytes, index: nat)
    requires index < 5
  {
    var last := KindAt(reader, line);
    last.Some? && (last.value == COURSE[index] || EndsRun(last.value, index))
  }

  lemma LastLineIs(reader: Reader, e: Expected, genesis: bytes, line: bytes, index: nat)
    requires index < 5
    ensures RowFits(reader, e, genesis, line, index) && Ends(reader, line, index) <==>
            LastLine(reader, e, genesis, line, index)
  {
    hide RowFits, KindAt, SaysLast, Tells, HeaderSays, EndsRun;
    if RowFits(reader, e, genesis, line, index) && Ends(reader, line, index) {
      LineIs(reader, e, genesis, line, index, KindAt(reader, line).value);
      LastIs(reader, e, genesis, reader.decode(line).value, index);
    }
    if LastLine(reader, e, genesis, line, index) {
      LastIs(reader, e, genesis, reader.decode(line).value, index);
      var k :| Tells(reader, e, genesis, reader.decode(line).value, k) && (k == COURSE[index] || EndsRun(k, index));
      LineIs(reader, e, genesis, line, index, k);
    }
  }

  lemma RunToldIs(reader: Reader, e: Expected, genesis: bytes, lines: seq<bytes>)
    ensures OnCourse(reader, lines) && (forall i :: 0 <= i < |lines| ==> RowFits(reader, e, genesis, lines[i], i)) <==>
            RunTold(reader, e, genesis, lines)
  {
    if 1 <= |lines| <= 5 {
      var last := |lines| - 1;
      LastLineIs(reader, e, genesis, lines[last], last);
      forall i | 0 <= i < last
        ensures RowFits(reader, e, genesis, lines[i], i) && KindAt(reader, lines[i]) == Some(COURSE[i]) <==>
                CourseLine(reader, e, genesis, lines[i], i)
      {
        CourseLineIs(reader, e, genesis, lines[i], i);
      }
      assert OnCourse(reader, lines) <==>
        (forall i :: 0 <= i < last ==> KindAt(reader, lines[i]) == Some(COURSE[i])) && Ends(reader, lines[last], last);
      hide COURSE, RowFits, KindAt, CourseLine, LastLine, Ends, OnCourse;
    }
  }

  // ---------------------------------------------------------------- the lines

  lemma {:induction false} TerminatedSplit(raw: bytes)
    requires EndsLine(raw)
    ensures Terminated(raw, Split(raw[..|raw| - 1]))
    decreases |raw|
  {
    hide Find;
    var cut := raw[..|raw| - 1];
    var k := Find(cut, NEWLINE);
    var lines := Split(cut);
    assert raw[..k] == cut[..k] && raw[k] == NEWLINE;
    assert NEWLINE !in raw[..k];
    if k == |cut| {
      assert cut[..k] == cut;
      assert lines[1..] == [] && raw[k + 1..] == [];
    } else {
      assert raw[k + 1..][..|raw| - k - 2] == cut[k + 1..];
      TerminatedSplit(raw[k + 1..]);
      assert lines[1..] == Split(cut[k + 1..]);
    }
  }

  lemma FirstEnd(raw: bytes, lines: seq<bytes>)
    requires Terminated(raw, lines) && lines != []
    ensures |lines[0]| == Find(raw, NEWLINE)
  {
    var n := |lines[0]|;
    assert forall i :: 0 <= i < n ==> raw[i] == raw[..n][i];
    FindIs(raw, NEWLINE, n);
  }

  lemma {:induction false} TerminatedOnce(raw: bytes, lines: seq<bytes>, other: seq<bytes>)
    requires Terminated(raw, lines) && Terminated(raw, other)
    ensures lines == other
    decreases |lines|
  {
    if lines != [] {
      assert other != [];
      var n := Find(raw, NEWLINE);
      FirstEnd(raw, lines);
      FirstEnd(raw, other);
      TerminatedOnce(raw[n + 1..], lines[1..], other[1..]);
      assert lines == [lines[0]] + lines[1..] && other == [other[0]] + other[1..];
    }
  }

  lemma {:induction false} TerminatedEnds(raw: bytes, lines: seq<bytes>)
    requires Terminated(raw, lines) && lines != []
    ensures EndsLine(raw)
  {
    if |lines| > 1 {
      TerminatedEnds(raw[|lines[0]| + 1..], lines[1..]);
    }
  }

  /** The lines that end a text's newlines are those the acceptors split. */
  lemma TerminatedExact(raw: bytes, lines: seq<bytes>)
    requires lines != []
    ensures Terminated(raw, lines) <==> EndsLine(raw) && lines == Split(raw[..|raw| - 1])
  {
    hide Terminated, Split;
    if Terminated(raw, lines) {
      TerminatedEnds(raw, lines);
      TerminatedSplit(raw);
      TerminatedOnce(raw, lines, Split(raw[..|raw| - 1]));
    }
    if EndsLine(raw) {
      TerminatedSplit(raw);
    }
  }

  // -------------------------------------------------------------- run reports

  lemma GuardIs(codec: Codec, raw: bytes, journal: bytes, e: Expected, genesis: bytes)
    ensures RunGuard(codec, raw, journal, e, genesis) <==>
            ExecutionTold(codec, journal, e, genesis) && EndsLine(raw) && |raw| <= 32_768
  {
    HashIs(e.chain, 64);
    NodeIs(e.node);
    Hash0xIs(genesis);
    AttemptIs(e.attempt);
    assert HasPrefix(e.directory, [SLASH]) <==> 1 <= |e.directory| && e.directory[0] == 0x2F;
    hide Ascii, HexText, IsHash, NodeText, NodeIdentity, PrefixedHex, Hash0x, AttemptShape, AttemptText, HasPrefix;
  }

  /** What a told run reports: the words of its last row, the number of rows, and
      the node instance once the third row says that it runs. */
  function ToldReport(reader: Reader, lines: seq<bytes>): Option<RunReport> {
    if lines == [] then None
    else
      var last :- reader.decode(lines[|lines| - 1]);
      Some(RunReport(last.status, last.reason, |lines|, if |lines| < 3 then None else ToldInstance(reader, lines[2])))
  }

  function ToldInstance(reader: Reader, line: bytes): Option<bytes> {
    match reader.decode(line)
    case None => None
    case Some(row) =>
      if row.status == Ascii("RUNNING") && row.details.Object? && Ascii("nodeInstanceId") in row.details.fields
      then match row.details.fields[Ascii("nodeInstanceId")] case Text(t) => Some(t) case _ => None
      else None
  }

  lemma InstanceTold(reader: Reader, line: bytes)
    requires KindAt(reader, line).Some?
    ensures (if KindAt(reader, line) == Some(Running) then InstanceOf(reader, line) else None) == ToldInstance(reader, line)
  {
    var row := reader.decode(line).value;
    KindIs(row.status, row.reason);
    var k := KindAt(reader, line).value;
    assert k != Running ==> StatusOf(k) != Ascii("RUNNING") by {
      assert StatusOf(k)[0] == Ascii("RUNNING")[0] && |StatusOf(k)| == 7 ==> k == Running;
    }
    hide Ascii, KindOf;
  }

  lemma LastWords(reader: Reader, line: bytes)
    requires KindAt(reader, line).Some?
    ensures var row := reader.decode(line);
            row.Some? && row.value.status == StatusOf(KindAt(reader, line).value)
            && row.value.reason == ReasonOf(KindAt(reader, line).value)
  {
    var row := reader.decode(line).value;
    KindIs(row.status, row.reason);
    hide StatusOf, ReasonOf, KindOf;
  }

  lemma ToldRow(reader: Reader, e: Expected, genesis: bytes, lines: seq<bytes>)
    requires 1 <= |lines| && RunAfter(reader, e, genesis, lines, |lines|).Some?
    ensures RunReportOf(RunAfter(reader, e, genesis, lines, |lines|).value, |lines|) == ToldReport(reader, lines)
    ensures ToldReport(reader, lines).Some?
  {
    hide RunAfter, KindAt, StatusOf, ReasonOf, InstanceOf, ToldInstance;
    var n := |lines|;
    FollowsCourse(reader, e, genesis, lines, n);
    InstanceReported(reader, e, genesis, lines, n);
    LastWords(reader, lines[n - 1]);
    if n >= 3 {
      InstanceTold(reader, lines[2]);
    }
  }

  /** A report is accepted exactly when it is the complete rows of one told run. */
  lemma AcceptedTold(codec: Codec, raw: bytes, journal: bytes, e: Expected, genesis: bytes)
    ensures RunResult(codec, raw, journal, e, genesis).Some? <==>
            exists lines :: ReportTold(codec, raw, journal, e, genesis, lines)
  {
    hide *;
    GuardIs(codec, raw, journal, e, genesis);
    ReportExact(codec, raw, journal, e, genesis);
    if RunResult(codec, raw, journal, e, genesis).Some? {
      var lines := Split(raw[..|raw| - 1]);
      RunToldIs(codec.reader, e, genesis, lines);
      TerminatedExact(raw, lines);
      AllTold(codec, raw, journal, e, genesis, lines);
    }
    if lines :| ReportTold(codec, raw, journal, e, genesis, lines) {
      AllTold(codec, raw, journal, e, genesis, lines);
      TerminatedExact(raw, lines);
      RunToldIs(codec.reader, e, genesis, lines);
    }
  }

  lemma AllTold(codec: Codec, raw: bytes, journal: bytes, e: Expected, genesis: bytes, lines: seq<bytes>)
    ensures ReportTold(codec, raw, journal, e, genesis, lines) <==>
            ExecutionTold(codec, journal, e, genesis) && |raw| <= 32_768 && Terminated(raw, lines)
            && RunTold(codec.reader, e, genesis, lines) && lines != []
    ensures RunGuard(codec, raw, journal, e, genesis) ==> raw != []
  {
    hide ExecutionTold, Terminated, CourseLine, LastLine;
    GuardNonEmpty(codec, raw, journal, e, genesis);
    hide RunGuard;
  }

  /** What an accepted report gives is read off its rows. */
  lemma AcceptedReport(codec: Codec, raw: bytes, journal: bytes, e: Expected, genesis: bytes, lines: seq<bytes>)
    requires ReportTold(codec, raw, journal, e, genesis, lines)
    ensures RunResult(codec, raw, journal, e, genesis).Some?
    ensures RunResult(codec, raw, journal, e, genesis) == ToldReport(codec.reader, lines)
  {
    AcceptedTold(codec, raw, journal, e, genesis);
    AllTold(codec, raw, journal, e, genesis, lines);
    TerminatedExact(raw, lines);
    hide ReportTold, RunAfter, RunReportOf, ToldReport, RunGuard, Split, Terminated, RunTold;
    ToldRow(codec.reader, e, genesis, lines);
  }

  // ------------------------------------------------- reports of initializations

  predicate TellsChecking(reader: Reader, row: Row) {
    && Says(row, "CHECKING", "VALIDATING_CONFIGURATION")
    && match row.details
       case Object(fields) => fields.Keys == {Ascii("build")} && reader.identifies(fields[Ascii("build")])
       case Array(items) => |items| == 1 && reader.identifies(items[0])
       case _ => false
  }

  predicate TellsStarting(e: Expected, row: Row) {
    && Says(row, "STARTING", "OPENING_MANAGED_STORAGE")
    && (row.details == Object(map[Ascii("backend") := Text(e.backend)]) || row.details == Array([Text(e.backend)]))
  }

  predicate TellsInitialized(e: Expected, genesis: bytes, row: Row) {
    && Says(row, "INITIALIZED", "STORAGE_CLOSED")
    && (row.details == Object(map[Ascii("genesisHash") := Text(genesis), Ascii("chainFingerprint") := Text(e.chain),
                                  Ascii("nodeIdentity") := Text(e.node)])
        || row.details == Array([Text(genesis), Text(e.chain), Text(e.node)]))
  }

  /** Standard output, three rows and the engine's record all tell of one finished
      initialization of this execution, and of the same genesis. */
  predicate InitTold(codec: Codec, stdout: bytes, raw: bytes, journal: bytes, e: Expected, command: bytes,
                     genesis: bytes, lines: seq<bytes>) {
    && (command == Ascii("init") || command == Ascii("resume-init"))
    && ExecutionTold(codec, journal, e, genesis)
    && 1 <= |stdout| <= 4096 && codec.output(stdout) == Some(Output(Ascii("INITIALIZED"), genesis, e.attempt))
    && |raw| <= 16_384 && Terminated(raw, lines) && |lines| == 3
    && (forall i :: 0 <= i < 3 ==> LineSays(codec.reader, command, e, lines[i], i + 1))
    && TellsChecking(codec.reader, codec.reader.decode(lines[0]).value)
    && TellsStarting(e, codec.reader.decode(lines[1]).value)
    && TellsInitialized(e, genesis, codec.reader.decode(lines[2]).value)
  }

  lemma InitCheckingIs(reader: Reader, command: bytes, e: Expected, line: bytes)
    ensures CheckingRow(reader, command, e, line) <==>
            LineSays(reader, command, e, line, 1) && TellsChecking(reader, reader.decode(line).value)
  {
    hide Ascii;
  }

  lemma InitStartingIs(reader: Reader, command: bytes, e: Expected, line: bytes)
    ensures StartingRow(reader, command, e, line) <==>
            LineSays(reader, command, e, line, 2) && TellsStarting(e, reader.decode(line).value)
  {
    hide Ascii;
    var row := reader.decode(line);
    if row.Some? && row.value.details.Object? {
      var fields := row.value.details.fields;
      assert fields == map[K_BACKEND := Text(e.backend)] <==>
             fields.Keys == {K_BACKEND} && fields[K_BACKEND] == Text(e.backend);
    }
  }

  lemma ThreeFields(fields: map<bytes, Value>, a: bytes, b: bytes, c: bytes, x: Value, y: Value, z: Value)
    requires a != b && b != c && a != c
    ensures fields == map[a := x, b := y, c := z] <==>
            fields.Keys == {a, b, c} && fields[a] == x && fields[b] == y && fields[c] == z
  {
  }

  lemma TypedThree(v: Value, a: bytes, b: bytes, c: bytes, x: Value, y: Value, z: Value)
    requires a != b && b != c && a != c
    ensures Typed(v, [a, b, c]) == Some([x, y, z]) <==>
            v == Object(map[a := x, b := y, c := z]) || v == Array([x, y, z])
  {
    var keys := [a, b, c];
    assert keys[0] == a && keys[1] == b && keys[2] == c;
    assert (set k | k in keys) == {a, b, c};
    if v.Object? {
      ThreeFields(v.fields, a, b, c, x, y, z);
      if v.fields.Keys == {a, b, c} {
        assert Typed(v, keys).value == [v.fields[a], v.fields[b], v.fields[c]];
      }
    }
  }

  lemma InitInitializedIs(reader: Reader, command: bytes, e: Expected, genesis: bytes, line: bytes)
    ensures InitializedRow(reader, command, e, genesis, line) <==>
            LineSays(reader, command, e, line, 3) && TellsInitialized(e, genesis, reader.decode(line).value)
  {
    assert |K_GENESIS| == 11 && |K_CHAIN| == 16 && |K_NODE| == 12;
    hide Ascii, Typed;
    var row := reader.decode(line);
    if row.Some? {
      TypedThree(row.value.details, K_GENESIS, K_CHAIN, K_NODE, Text(genesis), Text(e.chain), Text(e.node));
    }
  }

  lemma InitGuardIs(codec: Codec, stdout: bytes, raw: bytes, journal: bytes, e: Expected, command: bytes, genesis: bytes)
    ensures InitGuard(e, command) && Hash0x(genesis) && JournalIs(codec, journal, e, genesis) <==>
            (command == Ascii("init") || command == Ascii("resume-init"))
            && ExecutionTold(codec, journal, e, genesis)
  {
    HashIs(e.chain, 64);
    NodeIs(e.node);
    Hash0xIs(genesis);
    AttemptIs(e.attempt);
    assert HasPrefix(e.directory, [SLASH]) <==> 1 <= |e.directory| && e.directory[0] == 0x2F;
    hide Ascii, HexText, IsHash, NodeText, NodeIdentity, PrefixedHex, Hash0x, AttemptShape, AttemptText, HasPrefix;
  }

  /** Rows, standard output and the engine's record, as the acceptor checks them. */
  predicate InitChecked(codec: Codec, stdout: bytes, raw: bytes, journal: bytes, e: Expected, command: bytes,
                        genesis: bytes, lines: seq<bytes>) {
    && InitGuard(e, command) && Hash0x(genesis) && JournalIs(codec, journal, e, genesis)
    && stdout != [] && |stdout| <= MAX_STDOUT && codec.output(stdout) == Some(Output(Ascii("INITIALIZED"), genesis, e.attempt))
    && EndsLine(raw) && |raw| <= MAX_INIT_REPORT && lines == Split(raw[..|raw| - 1]) && |lines| == 3
    && CheckingRow(codec.reader, command, e, lines[0]) && StartingRow(codec.reader, command, e, lines[1])
    && InitializedRow(codec.reader, command, e, genesis, lines[2])
  }

  lemma InitCheckedIs(codec: Codec, stdout: bytes, raw: bytes, journal: bytes, e: Expected, command: bytes, genesis: bytes)
    ensures InitResult(codec, stdout, raw, journal, e, command) == Some(genesis) <==>
            EndsLine(raw)
            && InitChecked(codec, stdout, raw, journal, e, command, genesis, Split(raw[..|raw| - 1]))
  {
    hide Ascii, InitGuard, Hash0x, JournalIs, CheckingRow, StartingRow, InitializedRow, Split;
  }

  lemma InitLinesAre(codec: Codec, stdout: bytes, raw: bytes, journal: bytes, e: Expected, command: bytes,
                     genesis: bytes, lines: seq<bytes>)
    ensures InitChecked(codec, stdout, raw, journal, e, command, genesis, lines) <==>
            InitTold(codec, stdout, raw, journal, e, command, genesis, lines)
  {
    hide ExecutionTold, InitGuard, Hash0x, JournalIs, CheckingRow, StartingRow, InitializedRow, Split, LineSays,
      TellsChecking, TellsStarting, TellsInitialized, Ascii, Terminated;
    InitGuardIs(codec, stdout, raw, journal, e, command, genesis);
    if |lines| == 3 {
      TerminatedExact(raw, lines);
      InitCheckingIs(codec.reader, command, e, lines[0]);
      InitStartingIs(codec.reader, command, e, lines[1]);
      InitInitializedIs(codec.reader, command, e, genesis, lines[2]);
    }
  }

  /** An initialization is accepted, with this genesis, exactly when it is told. */
  lemma InitAccepted(codec: Codec, stdout: bytes, raw: bytes, journal: bytes, e: Expected, command: bytes, genesis: bytes)
    ensures InitResult(codec, stdout, raw, journal, e, command) == Some(genesis) <==>
            exists lines :: InitTold(codec, stdout, raw, journal, e, command, genesis, lines)
  {
    hide InitResult, InitChecked, InitTold, Split;
    InitCheckedIs(codec, stdout, raw, journal, e, command, genesis);
    if InitResult(codec, stdout, raw, journal, e, command) == Some(genesis) {
      InitLinesAre(codec, stdout, raw, journal, e, command, genesis, Split(raw[..|raw| - 1]));
    }
    if lines :| InitTold(codec, stdout, raw, journal, e, command, genesis, lines) {
      InitLinesAre(codec, stdout, raw, journal, e, command, genesis, lines);
      InitEnds(codec, stdout, raw, journal, e, command, genesis, lines);
    }
  }

  lemma InitEnds(codec: Codec, stdout: bytes, raw: bytes, journal: bytes, e: Expected, command: bytes, genesis: bytes,
                 lines: seq<bytes>)
    requires InitChecked(codec, stdout, raw, journal, e, command, genesis, lines)
    ensures EndsLine(raw) && lines == Split(raw[..|raw| - 1])
  {
  }

  // ------------------------------------------------------------ projected rows

  predicate IdentityTexts(v: Value) {
    && FieldText(v, "genesisHash", s => PrefixedHex(s, 64)) && FieldText(v, "chainFingerprint", s => HexText(s, 64))
    && FieldText(v, "nodeIdentity", NodeText)
  }

  /** A row whose words and details the projection may repeat. */
  predicate Showable(row: Row, command: bytes) {
    var d := row.details;
    || (Says(row, "CHECKING", "VALIDATING_CONFIGURATION") && Keys(d, {Ascii("build")}) && d.fields[Ascii("build")].Object?)
    || (Says(row, "STARTING", "OPENING_MANAGED_STORAGE") && Keys(d, {Ascii("backend")})
        && FieldText(d, "backend", BackendText))
    || (Says(row, "INITIALIZED", "STORAGE_CLOSED") && command != Ascii("run")
        && Keys(d, {Ascii("genesisHash"), Ascii("chainFingerprint"), Ascii("nodeIdentity")}) && IdentityTexts(d))
    || (Says(row, "FAILED", "STARTUP_OR_INITIALIZATION_FAILED") && Keys(d, {Ascii("resultMayBePartial")})
        && FieldIs(d, "resultMayBePartial", Flag(true)))
    || (command == Ascii("run")
        && (|| (Says(row, "RUNNING", "LOCAL_STARTUP_COMPLETED") && Keys(d, RUN_NAMES) && IdentityTexts(d)
                && FieldText(d, "nodeInstanceId", UuidText) && FieldIs(d, "networkQuorumVerified", Flag(false)))
            || SaysStopping(row) || SaysStopped(row) || SaysUnknown(row)))
  }

  lemma IdentityIs(v: Value)
    ensures v.Object? ==> (IdentityShape(v.fields) <==> IdentityTexts(v))
  {
    if v.Object? && K_GENESIS in v.fields && v.fields[K_GENESIS].Text? {
      Hash0xIs(v.fields[K_GENESIS].text);
    }
    if v.Object? && K_CHAIN in v.fields && v.fields[K_CHAIN].Text? {
      HashIs(v.fields[K_CHAIN].text, 64);
    }
    if v.Object? && K_NODE in v.fields && v.fields[K_NODE].Text? {
      NodeIs(v.fields[K_NODE].text);
    }
    hide Ascii, Hash0x, PrefixedHex, IsHash, HexText, NodeIdentity, NodeText;
  }

  predicate Shows(row: Row, command: bytes, k: Kind) {
    Is(k, row.status, row.reason) && CommandAllows(k, command) && ShapeOk(k, row.details)
  }

  lemma ShowsPlain(row: Row, command: bytes)
    ensures Shows(row, command, Checking) <==>
            Says(row, "CHECKING", "VALIDATING_CONFIGURATION") && Keys(row.details, {Ascii("build")})
            && row.details.fields[Ascii("build")].Object?
    ensures Shows(row, command, Starting) <==>
            Says(row, "STARTING", "OPENING_MANAGED_STORAGE") && Keys(row.details, {Ascii("backend")})
            && FieldText(row.details, "backend", BackendText)
    ensures Shows(row, command, Failed) <==>
            Says(row, "FAILED", "STARTUP_OR_INITIALIZATION_FAILED") && Keys(row.details, {Ascii("resultMayBePartial")})
            && FieldIs(row.details, "resultMayBePartial", Flag(true))
  {
    hide Ascii;
  }

  lemma ShowsIdentity(row: Row, command: bytes)
    ensures Shows(row, command, Initialized) <==>
            Says(row, "INITIALIZED", "STORAGE_CLOSED") && command != Ascii("run")
            && Keys(row.details, {Ascii("genesisHash"), Ascii("chainFingerprint"), Ascii("nodeIdentity")})
            && IdentityTexts(row.details)
  {
    IdentityIs(row.details);
    hide Ascii, IdentityShape, IdentityTexts;
  }

  lemma ShowsRunning(row: Row, command: bytes)
    ensures Shows(row, command, Running) <==>
            Says(row, "RUNNING", "LOCAL_STARTUP_COMPLETED") && command == Ascii("run") && Keys(row.details, RUN_NAMES)
            && IdentityTexts(row.details) && FieldText(row.details, "nodeInstanceId", UuidText)
            && FieldIs(row.details, "networkQuorumVerified", Flag(false))
  {
    IdentityIs(row.details);
    if FieldText(row.details, "nodeInstanceId", _ => true) {
      UuidIs(row.details.fields[Ascii("nodeInstanceId")].text);
    }
    hide Ascii, IdentityShape, IdentityTexts, Uuid, UuidText;
  }

  lemma ShowsClosing(row: Row, command: bytes)
    ensures Shows(row, command, Stopping) <==> command == Ascii("run") && SaysStopping(row)
    ensures Shows(row, command, Stopped) <==> command == Ascii("run") && SaysStopped(row)
  {
    hide Ascii;
  }

  lemma ShowsUnknown(row: Row, command: bytes)
    ensures Shows(row, command, ReportFailure) || Shows(row, command, NotConfirmed) || Shows(row, command, CloseOrReport) <==>
            command == Ascii("run") && SaysUnknown(row)
  {
    hide Ascii;
  }

  /** The projection repeats the words of exactly these rows. */
  lemma AllowedExact(row: Row, command: bytes)
    ensures Allowed(row, command).Some? <==> Showable(row, command)
  {
    ShowsPlain(row, command);
    ShowsIdentity(row, command);
    ShowsRunning(row, command);
    ShowsClosing(row, command);
    ShowsUnknown(row, command);
    AllowedShows(row, command);
    hide Shows, Allowed, Says, Keys, FieldIs, FieldText, IdentityTexts, SaysStopping, SaysStopped, SaysUnknown, Ascii;
  }

  lemma AllowedShows(row: Row, command: bytes)
    ensures Allowed(row, command).Some? <==>
              Shows(row, command, Checking) || Shows(row, command, Starting) || Shows(row, command, Initialized)
              || Shows(row, command, Failed) || Shows(row, command, Running) || Shows(row, command, Stopping)
              || Shows(row, command, Stopped) || Shows(row, command, ReportFailure)
              || Shows(row, command, NotConfirmed) || Shows(row, command, CloseOrReport)
  {
    forall k ensures KindOf(row.status, row.reason) == Some(k) <==> Is(k, row.status, row.reason) {
      KindExact(k, row.status, row.reason);
    }
    hide KindOf, Is, CommandAllows, ShapeOk;
  }

  // ------------------------------------------------------------ the projection

  predicate HeaderTold(reader: Reader, command: bytes, attempt: bytes, rows: seq<bytes>, j: nat)
    requires j < |rows|
  {
    && 1 <= |rows[j]| <= 8192 && reader.decode(rows[j]).Some? && reader.decode(rows[0]).Some?
    && var row := reader.decode(rows[j]).value;
    && row.command == command && row.attempt == attempt && row.sequence == j + 1 && row.contract == Ascii("PROPOSED")
    && row.pid == reader.decode(rows[0]).value.pid && row.pid > 0
  }

  /** The headers up to row `i` continue one report, and row `i` may be shown. */
  predicate ShownTold(reader: Reader, command: bytes, attempt: bytes, rows: seq<bytes>, i: nat)
    requires i < |rows|
  {
    && (forall j :: 0 <= j <= i ==> HeaderTold(reader, command, attempt, rows, j))
    && reader.decode(rows[i]).Some? && Showable(reader.decode(rows[i]).value, command)
  }

  function ToldEvents(reader: Reader, command: bytes, attempt: bytes, rows: seq<bytes>, n: nat): seq<Event>
    requires n <= |rows|
  {
    if n == 0 then []
    else
      var before := ToldEvents(reader, command, attempt, rows, n - 1);
      if !ShownTold(reader, command, attempt, rows, n - 1) then before
      else
        var row := reader.decode(rows[n - 1]).value;
        before + [Event(n, command, row.status, row.reason)]
  }

  predicate RequestTold(raw: bytes, command: bytes, attempt: bytes) {
    && (command == Ascii("init") || command == Ascii("resume-init") || command == Ascii("run"))
    && AttemptText(attempt) && 1 <= |raw| <= 32_768
  }

  lemma HeaderToldIs(reader: Reader, command: bytes, attempt: bytes, rows: seq<bytes>, j: nat)
    requires j < |rows|
    ensures HeaderFits(reader, command, attempt, rows, j) <==> HeaderTold(reader, command, attempt, rows, j)
  {
    hide Ascii;
  }

  lemma VisibleIs(reader: Reader, command: bytes, attempt: bytes, rows: seq<bytes>, i: nat)
    requires i < |rows|
    ensures Visible(reader, command, attempt, rows, i) <==> ShownTold(reader, command, attempt, rows, i)
  {
    forall j | 0 <= j <= i
      ensures HeaderFits(reader, command, attempt, rows, j) <==> HeaderTold(reader, command, attempt, rows, j)
    {
      HeaderToldIs(reader, command, attempt, rows, j);
    }
    if reader.decode(rows[i]).Some? {
      AllowedExact(reader.decode(rows[i]).value, command);
    }
    hide HeaderFits, HeaderTold, Allowed, Showable;
  }

  lemma {:induction false} EventsTold(reader: Reader, command: bytes, attempt: bytes, rows: seq<bytes>, n: nat)
    requires n <= |rows|
    ensures VisibleEvents(reader, command, attempt, rows, n) == ToldEvents(reader, command, attempt, rows, n)
  {
    hide Visible, ShownTold;
    if n > 0 {
      EventsTold(reader, command, attempt, rows, n - 1);
      VisibleIs(reader, command, attempt, rows, n - 1);
      ShownDecodes(reader, command, attempt, rows, n - 1);
    }
  }

  lemma ShownDecodes(reader: Reader, command: bytes, attempt: bytes, rows: seq<bytes>, i: nat)
    requires i < |rows|
    ensures ShownTold(reader, command, attempt, rows, i) ==> reader.decode(rows[i]).Some?
  {
    hide HeaderTold, Showable;
  }

  /** A text is its complete rows and a rest without a line end. */
  lemma {:induction false} RowsTold(raw: bytes) returns (head: bytes)
    ensures raw == head + Rest(raw) && Terminated(head, Rows(raw)) && NEWLINE !in Rest(raw)
    decreases |raw|
  {
    hide Find, Rows, Rest, Terminated;
    RowsUnfold(raw);
    RestUnfold(raw);
    var k := Find(raw, NEWLINE);
    NoneTerminated();
    if k < |raw| {
      var tail := RowsTold(raw[k + 1..]);
      head := raw[..k] + [NEWLINE] + tail;
      assert NEWLINE !in raw[..k];
      assert raw == raw[..k] + [NEWLINE] + raw[k + 1..];
      TerminatedMore(raw[..k], tail, Rows(raw[k + 1..]));
    } else {
      head := [];
    }
  }

  lemma RestUnfold(raw: bytes)
    ensures var k := Find(raw, NEWLINE); Rest(raw) == if k == |raw| then raw else Rest(raw[k + 1..])
  {
    hide Find;
  }

  lemma NoneTerminated()
    ensures Terminated([], [])
  {
  }

  lemma TerminatedMore(line: bytes, tail: bytes, lines: seq<bytes>)
    requires NEWLINE !in line && Terminated(tail, lines)
    ensures Terminated(line + [NEWLINE] + tail, [line] + lines)
  {
    assert (line + [NEWLINE] + tail)[|line| + 1..] == tail && ([line] + lines)[1..] == lines;
  }

  /** Of a request within its limits, the first sixteen complete rows are shown or
      counted, and one more is counted when anything is left; any other request is
      withheld. */
  lemma ProjectTold(reader: Reader, raw: bytes, command: bytes, attempt: bytes)
    ensures var p := Project(reader, raw, command, attempt);
            if !RequestTold(raw, command, attempt) then p == Projection([], 1, true)
            else
              var read := if |Rows(raw)| <= 16 then |Rows(raw)| else 16;
              && p.events == ToldEvents(reader, command, attempt, Rows(raw), read)
              && p.omitted == read - |p.events| + (if |Rows(raw)| > 16 || Rest(raw) != [] then 1 else 0)
              && p.partial == (p.omitted > 0)
  {
    AttemptIs(attempt);
    EventsTold(reader, command, attempt, Rows(raw), Consumed(raw));
    Counted(reader, raw, command, attempt);
    hide AttemptShape, AttemptText, Ascii, Rows, Rest, After, ToldEvents, VisibleEvents;
    if Projectable(raw, command, attempt) {
      ProjectShows(reader, raw, command, attempt);
    }
  }
}
