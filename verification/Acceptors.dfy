/** The two strict report acceptors: a run report
    (src/engine/runtime_result.rs, `validate_report`) and the report of a finished
    initialization (src/engine/init_result.rs, `validate_success`). */
module Acceptors {
  import opened Prelude
  import opened Reports

  const MAX_RUN_ROWS: nat := 6
  const MAX_INIT_REPORT: nat := 16_384
  const MAX_STDOUT: nat := 4096
  const MAX_JOURNAL: nat := 8192

  /** The engine's own record in the instance directory. */
  datatype Journal = Journal(
    status: bytes, backend: bytes, chain: bytes, node: bytes, directory: bytes, genesis: bytes)

  /** What the engine printed when it finished. */
  datatype Output = Output(status: bytes, genesis: bytes, attempt: bytes)

  /** The execution the records must belong to; `available` says that the pinned
      identity carries build information. */
  datatype Expected = Expected(
    attempt: bytes, pid: nat, available: bool, backend: bytes, chain: bytes, node: bytes, directory: bytes)

  datatype Codec = Codec(reader: Reader, journal: bytes -> Option<Journal>, output: bytes -> Option<Output>)

  /** `split`: a text cut at every newline, so one piece more than newlines. */
  function Split(raw: bytes): (lines: seq<bytes>)
    ensures |lines| >= 1
    decreases |raw|
  {
    var k := Find(raw, NEWLINE);
    if k == |raw| then [raw] else [raw[..k]] + Split(raw[k + 1..])
  }

  predicate EndsLine(raw: bytes) {
    raw != [] && raw[|raw| - 1] == NEWLINE
  }

  predicate Scope(e: Expected) {
    e.available && BackendOk(e.backend) && IsHash(e.chain, 64) && NodeIdentity(e.node) && HasPrefix(e.directory, [SLASH])
  }

  predicate JournalIs(codec: Codec, raw: bytes, e: Expected, genesis: bytes) {
    && 0 < |raw| <= MAX_JOURNAL
    && codec.journal(raw) == Some(Journal(Ascii("INITIALIZED"), e.backend, e.chain, e.node, e.directory, genesis))
  }

  // -------------------------------------------------------------- run report

  datatype RunReport = RunReport(status: bytes, reason: bytes, sequence: nat, instance: Option<bytes>)

  /** What the loop carries: the kind of the last row and the node instance. */
  datatype RunState = RunState(last: Option<Kind>, instance: Option<bytes>)

  predicate Unsure(k: Kind) {
    k.ReportFailure? || k.NotConfirmed? || k.CloseOrReport?
  }

  /** Nothing may follow a row of these statuses. */
  predicate Terminal(k: Kind) {
    k.Stopped? || k.Failed? || Unsure(k)
  }

  predicate HeaderIs(row: Row, command: bytes, e: Expected, sequence: nat) {
    row.attempt == e.attempt && row.command == command && row.sequence == sequence && row.pid == e.pid
    && row.contract == PROPOSED
  }

  predicate MayFollow(last: Option<Kind>, k: Kind, index: nat) {
    match k
    case Checking => index == 0
    case Starting => last == Some(Checking)
    case Initialized => false
    case Running => last == Some(Starting)
    case Stopping => last == Some(Running)
    case Stopped => last == Some(Stopping)
    case Failed => index > 0
    case _ => last == Some(Running) || last == Some(Stopping)
  }

  predicate IsText(v: Value, text: bytes) {
    v == Text(text)
  }

  /** A row's details are those of the expected execution. */
  predicate DetailsAre(reader: Reader, e: Expected, genesis: bytes, k: Kind, v: Value) {
    match k
    case Checking => Fields(v, {K_BUILD}).Some? && K_BUILD in v.fields && reader.identifies(v.fields[K_BUILD])
    case Starting => Fields(v, {K_BACKEND}).Some? && K_BACKEND in v.fields && IsText(v.fields[K_BACKEND], e.backend)
    case Initialized => false
    case Running =>
      Fields(v, RUNNING_KEYS).Some?
      && K_GENESIS in v.fields && IsText(v.fields[K_GENESIS], genesis)
      && K_CHAIN in v.fields && IsText(v.fields[K_CHAIN], e.chain)
      && K_NODE in v.fields && IsText(v.fields[K_NODE], e.node)
      && K_QUORUM in v.fields && v.fields[K_QUORUM] == Flag(false)
      && K_INSTANCE in v.fields && v.fields[K_INSTANCE].Text? && Uuid(v.fields[K_INSTANCE].text)
    case Stopping => Fields(v, {}).Some?
    case Stopped => Closed(v) == Some((true, true))
    case Failed => Fields(v, {K_PARTIAL}).Some? && K_PARTIAL in v.fields && v.fields[K_PARTIAL] == Flag(true)
    case ReportFailure => Closed(v).Some?
    case NotConfirmed => Closed(v).Some? && Closed(v) != Some((true, true))
    case CloseOrReport => Fields(v, {}).Some?
  }

  /** One row after `st`; nothing when the report is refused here. */
  function RunStep(reader: Reader, e: Expected, genesis: bytes, st: RunState, line: bytes, index: nat): Option<RunState> {
    if index >= MAX_RUN_ROWS || line == [] || |line| > MAX_ROW_BYTES then None
    else
      var row :- reader.decode(line);
      var k :- KindOf(row.status, row.reason);
      if HeaderIs(row, RUN, e, index + 1) && !(st.last.Some? && Terminal(st.last.value))
         && MayFollow(st.last, k, index) && DetailsAre(reader, e, genesis, k, row.details)
      then Some(RunState(Some(k), if k.Running? then Some(row.details.fields[K_INSTANCE].text) else st.instance))
      else None
  }

  function RunAfter(reader: Reader, e: Expected, genesis: bytes, lines: seq<bytes>, n: nat): Option<RunState>
    requires n <= |lines|
  {
    if n == 0 then Some(RunState(None, None))
    else
      var st :- RunAfter(reader, e, genesis, lines, n - 1);
      RunStep(reader, e, genesis, st, lines[n - 1], n - 1)
  }

  predicate RunGuard(codec: Codec, raw: bytes, journal: bytes, e: Expected, genesis: bytes) {
    Scope(e) && Hash0x(genesis) && JournalIs(codec, journal, e, genesis) && e.pid != 0 && AttemptShape(e.attempt)
    && EndsLine(raw) && |raw| <= MAX_BYTES
  }

  function RunReportOf(st: RunState, n: nat): Option<RunReport> {
    var k :- st.last;
    Some(RunReport(StatusOf(k), ReasonOf(k), n, st.instance))
  }

  function RunResult(codec: Codec, raw: bytes, journal: bytes, e: Expected, genesis: bytes): Option<RunReport> {
    if !RunGuard(codec, raw, journal, e, genesis) then None
    else
      var lines := Split(raw[..|raw| - 1]);
      var st :- RunAfter(codec.reader, e, genesis, lines, |lines|);
      RunReportOf(st, |lines|)
  }

  method ValidateReport(codec: Codec, raw: bytes, journal: bytes, e: Expected, genesis: bytes)
    returns (r: Option<RunReport>)
    ensures r == RunResult(codec, raw, journal, e, genesis)
  {
    if !RunGuard(codec, raw, journal, e, genesis) {
      return None;
    }
    hide RunGuard, RunStep, Split;
    var lines := Split(raw[..|raw| - 1]);
    var st := RunState(None, None);
    var index := 0;
    while index < |lines|
      invariant 0 <= index <= |lines|
      invariant RunAfter(codec.reader, e, genesis, lines, index) == Some(st)
    {
      var next := RunStep(codec.reader, e, genesis, st, lines[index], index);
      if next.None? {
        RefusedOnce(codec.reader, e, genesis, lines, index + 1, |lines|);
        return None;
      }
      st := next.value;
      index := index + 1;
    }
    r := RunReportOf(st, |lines|);
  }

  lemma {:induction false} RefusedOnce(reader: Reader, e: Expected, genesis: bytes, lines: seq<bytes>, m: nat, n: nat)
    requires m <= n <= |lines| && RunAfter(reader, e, genesis, lines, m) == None
    ensures RunAfter(reader, e, genesis, lines, n) == None
    decreases n
  {
    hide RunStep;
    if m < n {
      RefusedOnce(reader, e, genesis, lines, m, n - 1);
    }
  }

  // ------------------------------------------------------------- init report

  /** Details decoded as a record: an object with exactly its fields, or an array
      with its values in order. */
  function Typed(v: Value, keys: seq<bytes>): Option<seq<Value>> {
    if v.Object? && v.fields.Keys == (set k | k in keys) then
      Some(seq(|keys|, i requires 0 <= i < |keys| => assert keys[i] in v.fields; v.fields[keys[i]]))
    else if v.Array? && |v.items| == |keys| then Some(v.items)
    else None
  }

  function TypedRow(reader: Reader, line: bytes, keys: seq<bytes>): Option<(Row, seq<Value>)> {
    if line == [] || |line| > MAX_ROW_BYTES then None
    else
      var row :- reader.decode(line);
      var values :- Typed(row.details, keys);
      Some((row, values))
  }

  predicate RowIs(row: Row, command: bytes, e: Expected, k: Kind, sequence: nat) {
    HeaderIs(row, command, e, sequence) && row.status == StatusOf(k) && row.reason == ReasonOf(k)
  }

  const CHECKING_FIELDS: seq<bytes> := [K_BUILD]
  const STARTING_FIELDS: seq<bytes> := [K_BACKEND]
  const INITIALIZED_FIELDS: seq<bytes> := [K_GENESIS, K_CHAIN, K_NODE]

  predicate CheckingRow(reader: Reader, command: bytes, e: Expected, line: bytes) {
    var got := TypedRow(reader, line, CHECKING_FIELDS);
    got.Some? && |got.value.1| == 1 && RowIs(got.value.0, command, e, Checking, 1) && reader.identifies(got.value.1[0])
  }

  predicate StartingRow(reader: Reader, command: bytes, e: Expected, line: bytes) {
    var got := TypedRow(reader, line, STARTING_FIELDS);
    got.Some? && |got.value.1| == 1 && RowIs(got.value.0, command, e, Starting, 2) && IsText(got.value.1[0], e.backend)
  }

  predicate InitializedRow(reader: Reader, command: bytes, e: Expected, genesis: bytes, line: bytes) {
    var got := TypedRow(reader, line, INITIALIZED_FIELDS);
    got.Some? && RowIs(got.value.0, command, e, Initialized, 3)
    && got.value.1 == [Text(genesis), Text(e.chain), Text(e.node)]
  }

  predicate InitGuard(e: Expected, command: bytes) {
    (command == INIT || command == RESUME) && AttemptShape(e.attempt) && Scope(e) && e.pid != 0
  }

  /** The genesis hash that standard output, the report and the engine's record
      all carry. */
  function InitResult(codec: Codec, stdout: bytes, raw: bytes, journal: bytes, e: Expected, command: bytes): Option<bytes> {
    if !InitGuard(e, command) || stdout == [] || |stdout| > MAX_STDOUT then None
    else
      var output :- codec.output(stdout);
      if !EndsLine(raw) || |raw| > MAX_INIT_REPORT then None
      else
        var lines := Split(raw[..|raw| - 1]);
        if && |lines| == 3
           && CheckingRow(codec.reader, command, e, lines[0])
           && StartingRow(codec.reader, command, e, lines[1])
           && InitializedRow(codec.reader, command, e, output.genesis, lines[2])
           && output.status == Ascii("INITIALIZED") && output.attempt == e.attempt && Hash0x(output.genesis)
           && JournalIs(codec, journal, e, output.genesis)
        then Some(output.genesis) else None
  }

  // ------------------------------------------------------ accepted run reports

  /** The rows of a run, in the one order they may appear. */
  const COURSE: seq<Kind> := [Checking, Starting, Running, Stopping, Stopped]

  predicate EndsRun(k: Kind, index: nat) {
    (k.Failed? && index > 0) || (Unsure(k) && 3 <= index <= 4)
  }

  function KindAt(reader: Reader, line: bytes): Option<Kind> {
    var row :- reader.decode(line);
    KindOf(row.status, row.reason)
  }

  lemma RunStepIs(reader: Reader, e: Expected, genesis: bytes, st: RunState, line: bytes, index: nat)
    ensures var r := RunStep(reader, e, genesis, st, line, index);
            r.Some? ==>
              && r.value.last.Some? && r.value.last == KindAt(reader, line)
              && !(st.last.Some? && Terminal(st.last.value))
              && MayFollow(st.last, r.value.last.value, index)
  {
    hide KindOf, DetailsAre, HeaderIs, MayFollow, Terminal;
  }

  /** An accepted report follows the course, and may leave it only by its last
      row: a failure after the first row, or an uncertain close once running. */
  lemma {:induction false} FollowsCourse(reader: Reader, e: Expected, genesis: bytes, lines: seq<bytes>, n: nat)
    requires 0 < n <= |lines| && RunAfter(reader, e, genesis, lines, n).Some?
    ensures n <= 5 && forall i :: 0 <= i < n - 1 ==> KindAt(reader, lines[i]) == Some(COURSE[i])
    ensures var last := RunAfter(reader, e, genesis, lines, n).value.last;
            last.Some? && last == KindAt(reader, lines[n - 1]) && (last.value == COURSE[n - 1] || EndsRun(last.value, n - 1))
  {
    hide RunStep, KindAt;
    var st := RunAfter(reader, e, genesis, lines, n - 1).value;
    RunStepIs(reader, e, genesis, st, lines[n - 1], n - 1);
    if n > 1 {
      FollowsCourse(reader, e, genesis, lines, n - 1);
    }
  }

  /** A line is a complete row of this execution at this place, with the details
      that its own kind demands. */
  predicate RowFits(reader: Reader, e: Expected, genesis: bytes, line: bytes, index: nat) {
    && line != [] && |line| <= MAX_ROW_BYTES
    && var row := reader.decode(line);
    && row.Some? && HeaderIs(row.value, RUN, e, index + 1)
    && var k := KindOf(row.value.status, row.value.reason);
    && k.Some? && DetailsAre(reader, e, genesis, k.value, row.value.details)
  }

  /** The kinds of these lines follow the course, left by the last line at most. */
  predicate OnCourse(reader: Reader, lines: seq<bytes>) {
    && 1 <= |lines| <= 5
    && (forall i :: 0 <= i < |lines| - 1 ==> KindAt(reader, lines[i]) == Some(COURSE[i]))
    && var last := KindAt(reader, lines[|lines| - 1]);
    && last.Some? && (last.value == COURSE[|lines| - 1] || EndsRun(last.value, |lines| - 1))
  }

  lemma FitsStep(reader: Reader, e: Expected, genesis: bytes, st: RunState, line: bytes, index: nat)
    ensures var r := RunStep(reader, e, genesis, st, line, index);
            var k := KindAt(reader, line);
            r.Some? <==> index < MAX_RUN_ROWS && RowFits(reader, e, genesis, line, index) && k.Some?
                         && !(st.last.Some? && Terminal(st.last.value)) && MayFollow(st.last, k.value, index)
  {
    hide KindOf, DetailsAre, HeaderIs, MayFollow, Terminal;
  }

  /** Along the course no row ends the report too soon, and each may follow. */
  lemma CourseFollows(last: Option<Kind>, k: Kind, index: nat)
    requires index < 5 && (k == COURSE[index] || EndsRun(k, index))
    requires if index == 0 then last == None else last == Some(COURSE[index - 1])
    ensures !(last.Some? && Terminal(last.value)) && MayFollow(last, k, index)
  {
  }

  lemma {:induction false} CourseAccepted(reader: Reader, e: Expected, genesis: bytes, lines: seq<bytes>)
    requires OnCourse(reader, lines) && forall i :: 0 <= i < |lines| ==> RowFits(reader, e, genesis, lines[i], i)
    ensures RunAfter(reader, e, genesis, lines, |lines|).Some?
  {
    hide RunStep, KindAt, RowFits;
    var n := |lines| - 1;
    var st := RunState(None, None);
    if n > 0 {
      var init := lines[..n];
      assert KindAt(reader, init[n - 1]) == Some(COURSE[n - 1]);
      CourseAccepted(reader, e, genesis, init);
      AfterPrefix(reader, e, genesis, lines, n, n);
      FollowsCourse(reader, e, genesis, lines, n);
      st := RunAfter(reader, e, genesis, lines, n).value;
    }
    CourseFollows(st.last, KindAt(reader, lines[n]).value, n);
    FitsStep(reader, e, genesis, st, lines[n], n);
  }

  lemma {:induction false} AfterPrefix(reader: Reader, e: Expected, genesis: bytes, lines: seq<bytes>, m: nat, n: nat)
    requires n <= m <= |lines|
    ensures RunAfter(reader, e, genesis, lines[..m], n) == RunAfter(reader, e, genesis, lines, n)
    decreases n
  {
    hide RunStep;
    if n > 0 {
      AfterPrefix(reader, e, genesis, lines, m, n - 1);
    }
  }

  lemma {:induction false} AcceptedFits(reader: Reader, e: Expected, genesis: bytes, lines: seq<bytes>, n: nat)
    requires n <= |lines| && RunAfter(reader, e, genesis, lines, n).Some?
    ensures forall i :: 0 <= i < n ==> RowFits(reader, e, genesis, lines[i], i)
  {
    hide RunStep, RowFits;
    if n > 0 {
      AcceptedFits(reader, e, genesis, lines, n - 1);
      FitsStep(reader, e, genesis, RunAfter(reader, e, genesis, lines, n - 1).value, lines[n - 1], n - 1);
    }
  }

  /** A report is accepted exactly when its guard holds, every line is a fitting row
      of the execution, and the kinds follow the course, which the last row alone
      may leave. */
  lemma ReportExact(codec: Codec, raw: bytes, journal: bytes, e: Expected, genesis: bytes)
    ensures RunResult(codec, raw, journal, e, genesis).Some? <==>
            RunGuard(codec, raw, journal, e, genesis) && raw != []
            && var lines := Split(raw[..|raw| - 1]);
            OnCourse(codec.reader, lines)
            && forall i :: 0 <= i < |lines| ==> RowFits(codec.reader, e, genesis, lines[i], i)
  {
    hide RunGuard, RunAfter, RowFits, KindAt, Split, StatusOf, ReasonOf;
    GuardNonEmpty(codec, raw, journal, e, genesis);
    if RunGuard(codec, raw, journal, e, genesis) {
      var lines := Split(raw[..|raw| - 1]);
      if RunAfter(codec.reader, e, genesis, lines, |lines|).Some? {
        FollowsCourse(codec.reader, e, genesis, lines, |lines|);
        AcceptedFits(codec.reader, e, genesis, lines, |lines|);
      }
      if OnCourse(codec.reader, lines)
         && forall i :: 0 <= i < |lines| ==> RowFits(codec.reader, e, genesis, lines[i], i) {
        CourseAccepted(codec.reader, e, genesis, lines);
        FollowsCourse(codec.reader, e, genesis, lines, |lines|);
      }
    }
  }

  lemma GuardNonEmpty(codec: Codec, raw: bytes, journal: bytes, e: Expected, genesis: bytes)
    ensures RunGuard(codec, raw, journal, e, genesis) ==> raw != []
  {
  }

  /** The node instance that a row's details name. */
  function InstanceOf(reader: Reader, line: bytes): Option<bytes> {
    var row :- reader.decode(line);
    if row.details.Object? && K_INSTANCE in row.details.fields && row.details.fields[K_INSTANCE].Text?
    then Some(row.details.fields[K_INSTANCE].text) else None
  }

  lemma StepInstance(reader: Reader, e: Expected, genesis: bytes, st: RunState, line: bytes, index: nat)
    ensures var r := RunStep(reader, e, genesis, st, line, index);
            r.Some? ==>
              r.value.instance == if KindAt(reader, line) == Some(Running) then InstanceOf(reader, line) else st.instance
  {
    hide KindOf, HeaderIs, MayFollow, Terminal, Uuid, IsText;
  }

  /** The reported node instance is the one of the third row, once that is running. */
  lemma {:induction false} InstanceReported(reader: Reader, e: Expected, genesis: bytes, lines: seq<bytes>, n: nat)
    requires n <= |lines| && RunAfter(reader, e, genesis, lines, n).Some?
    ensures RunAfter(reader, e, genesis, lines, n).value.instance
         == if n >= 3 && KindAt(reader, lines[2]) == Some(Running) then InstanceOf(reader, lines[2]) else None
  {
    hide RunStep, KindAt, InstanceOf;
    if n > 0 {
      InstanceReported(reader, e, genesis, lines, n - 1);
      FollowsCourse(reader, e, genesis, lines, n);
      StepInstance(reader, e, genesis, RunAfter(reader, e, genesis, lines, n - 1).value, lines[n - 1], n - 1);
    }
  }
}
