/** Engine reports, one JSON row per line, and their projection. */
module Reports {
  import opened Prelude

  // src/engine/diagnostic_events.rs, `project` and `allowed`, with the vocabulary
  // that the report acceptors share. Decoding a line and comparing a build identity
  // are parameters.

  const MAX_BYTES: nat := 32_768
  const MAX_ROWS: nat := 16
  const MAX_ROW_BYTES: nat := 8192

  /** A decoded JSON value, as far as the checks look into it. */
  datatype Value = Text(text: bytes) | Flag(flag: bool) | Object(fields: map<bytes, Value>) | Array(items: seq<Value>) | Other

  datatype Row = Row(
    attempt: bytes, command: bytes, sequence: nat, pid: nat, status: bytes, reason: bytes, contract: bytes,
    details: Value)

  /** `decode` reads one line; `identifies` says whether a value decodes to the
      expected build identity, in whatever form the decoder takes it. */
  datatype Reader = Reader(decode: bytes -> Option<Row>, identifies: Value -> bool)

  const PROPOSED: bytes := Ascii("PROPOSED")
  const RUN: bytes := Ascii("run")
  const INIT: bytes := Ascii("init")
  const RESUME: bytes := Ascii("resume-init")

  // ------------------------------------------------------------------ shapes

  predicate AttemptShape(a: bytes) {
    0 < |a| <= 80
    && forall i :: 0 <= i < |a| ==>
         IsDigit(a[i]) || 0x41 <= a[i] <= 0x5A || 0x61 <= a[i] <= 0x7A || a[i] == 0x5F || a[i] == 0x2D
  }

  predicate Hash0x(s: bytes) {
    |s| == 66 && s[0] == 0x30 && s[1] == 0x78 && IsHash(s[2..], 64)
  }

  predicate LowerHex(b: byte) {
    IsDigit(b) || 0x61 <= b <= 0x66
  }

  /** A version 4 UUID in lower case. */
  predicate Uuid(s: bytes) {
    |s| == 36 && s[14] == 0x34 && s[19] in [0x38, 0x39, 0x61, 0x62]
    && forall i :: 0 <= i < 36 ==> if i in [8, 13, 18, 23] then s[i] == 0x2D else LowerHex(s[i])
  }

  /** The single-node mark, or a node id and what the node is. */
  predicate NodeIdentity(s: bytes) {
    s == Ascii("INSTANT")
    || (|s| > 66 && Hash0x(s[..66]) && s[66] == 0x3A
        && (s[67..] == Ascii("OBSERVER") || (|s| == 109 && s[67] == 0x30 && s[68] == 0x78 && IsHash(s[69..], 40))))
  }

  predicate BackendOk(s: bytes) {
    s == Ascii("rocksdb") || s == Ascii("h2")
  }

  /** An object with exactly these keys. */
  function Fields(v: Value, keys: set<bytes>): Option<map<bytes, Value>> {
    if v.Object? && v.fields.Keys == keys then Some(v.fields) else None
  }

  // -------------------------------------------------------- detail contents

  const K_BUILD: bytes := Ascii("build")
  const K_BACKEND: bytes := Ascii("backend")
  const K_GENESIS: bytes := Ascii("genesisHash")
  const K_CHAIN: bytes := Ascii("chainFingerprint")
  const K_NODE: bytes := Ascii("nodeIdentity")
  const K_INSTANCE: bytes := Ascii("nodeInstanceId")
  const K_QUORUM: bytes := Ascii("networkQuorumVerified")
  const K_CLOSED: bytes := Ascii("storageClosed")
  const K_STOPPED: bytes := Ascii("consensusStopReturned")
  const K_PARTIAL: bytes := Ascii("resultMayBePartial")

  const IDENTITY_KEYS: set<bytes> := {K_GENESIS, K_CHAIN, K_NODE}
  const RUNNING_KEYS: set<bytes> := {K_GENESIS, K_CHAIN, K_NODE, K_INSTANCE, K_QUORUM}
  const CLOSED_KEYS: set<bytes> := {K_CLOSED, K_STOPPED}

  /** The kinds of row, by status and reason. */
  datatype Kind =
    | Checking | Starting | Initialized | Running | Stopping | Stopped | Failed
    | ReportFailure | NotConfirmed | CloseOrReport

  function StatusOf(k: Kind): bytes {
    match k
    case Checking => Ascii("CHECKING")
    case Starting => Ascii("STARTING")
    case Initialized => Ascii("INITIALIZED")
    case Running => Ascii("RUNNING")
    case Stopping => Ascii("STOPPING")
    case Stopped => Ascii("STOPPED")
    case Failed => Ascii("FAILED")
    case ReportFailure => Ascii("UNKNOWN")
    case NotConfirmed => Ascii("UNKNOWN")
    case CloseOrReport => Ascii("UNKNOWN")
  }

  function ReasonOf(k: Kind): bytes {
    match k
    case Checking => Ascii("VALIDATING_CONFIGURATION")
    case Starting => Ascii("OPENING_MANAGED_STORAGE")
    case Initialized => Ascii("STORAGE_CLOSED")
    case Running => Ascii("LOCAL_STARTUP_COMPLETED")
    case Stopping => Ascii("SHUTDOWN_REQUESTED")
    case Stopped => Ascii("STORAGE_AND_CONSENSUS_CLOSED")
    case Failed => Ascii("STARTUP_OR_INITIALIZATION_FAILED")
    case ReportFailure => Ascii("REPORT_FAILURE")
    case NotConfirmed => Ascii("CLOSE_NOT_CONFIRMED")
    case CloseOrReport => Ascii("CLOSE_OR_REPORT_FAILURE")
  }

  function KindOf(status: bytes, reason: bytes): Option<Kind> {
    if Is(Checking, status, reason) then Some(Checking)
    else if Is(Starting, status, reason) then Some(Starting)
    else if Is(Initialized, status, reason) then Some(Initialized)
    else if Is(Running, status, reason) then Some(Running)
    else if Is(Stopping, status, reason) then Some(Stopping)
    else if Is(Stopped, status, reason) then Some(Stopped)
    else if Is(Failed, status, reason) then Some(Failed)
    else if Is(ReportFailure, status, reason) then Some(ReportFailure)
    else if Is(NotConfirmed, status, reason) then Some(NotConfirmed)
    else if Is(CloseOrReport, status, reason) then Some(CloseOrReport)
    else None
  }

  predicate Is(k: Kind, status: bytes, reason: bytes) {
    status == StatusOf(k) && reason == ReasonOf(k)
  }

  lemma KindIs(status: bytes, reason: bytes)
    ensures KindOf(status, reason).Some? ==> Is(KindOf(status, reason).value, status, reason)
  {
    hide StatusOf, ReasonOf;
  }

  // --------------------------------------------------------- the projection

  predicate IdentityShape(d: map<bytes, Value>) {
    && K_GENESIS in d && d[K_GENESIS].Text? && Hash0x(d[K_GENESIS].text)
    && K_CHAIN in d && d[K_CHAIN].Text? && IsHash(d[K_CHAIN].text, 64)
    && K_NODE in d && d[K_NODE].Text? && NodeIdentity(d[K_NODE].text)
  }

  function Closed(v: Value): Option<(bool, bool)> {
    match Fields(v, CLOSED_KEYS)
    case None => None
    case Some(d) =>
      if K_CLOSED in d && d[K_CLOSED].Flag? && K_STOPPED in d && d[K_STOPPED].Flag?
      then Some((d[K_CLOSED].flag, d[K_STOPPED].flag)) else None
  }

  /** `allowed`, on the details of a row of this kind. */
  predicate ShapeOk(k: Kind, v: Value) {
    match k
    case Checking => Fields(v, {K_BUILD}).Some? && K_BUILD in v.fields && v.fields[K_BUILD].Object?
    case Starting =>
      Fields(v, {K_BACKEND}).Some? && K_BACKEND in v.fields && v.fields[K_BACKEND].Text?
      && BackendOk(v.fields[K_BACKEND].text)
    case Initialized => Fields(v, IDENTITY_KEYS).Some? && IdentityShape(v.fields)
    case Running =>
      Fields(v, RUNNING_KEYS).Some? && IdentityShape(v.fields)
      && K_INSTANCE in v.fields && v.fields[K_INSTANCE].Text? && Uuid(v.fields[K_INSTANCE].text)
      && K_QUORUM in v.fields && v.fields[K_QUORUM] == Flag(false)
    case Stopping => Fields(v, {}).Some?
    case Stopped => Closed(v) == Some((true, true))
    case Failed => Fields(v, {K_PARTIAL}).Some? && K_PARTIAL in v.fields && v.fields[K_PARTIAL] == Flag(true)
    case ReportFailure => Closed(v).Some?
    case NotConfirmed => Closed(v).Some? && Closed(v) != Some((true, true))
    case CloseOrReport => Fields(v, {}).Some?
  }

  predicate CommandAllows(k: Kind, command: bytes) {
    match k
    case Checking => true
    case Starting => true
    case Failed => true
    case Initialized => command != RUN
    case _ => command == RUN
  }

  function Allowed(row: Row, command: bytes): Option<Kind> {
    match KindOf(row.status, row.reason)
    case None => None
    case Some(k) => if CommandAllows(k, command) && ShapeOk(k, row.details) then Some(k) else None
  }

  datatype Event = Event(sequence: nat, command: bytes, status: bytes, reason: bytes)

  datatype Projection = Projection(events: seq<Event>, omitted: nat, partial: bool)

  /** What the loop carries from row to row. */
  datatype State = State(pid: Option<nat>, broken: bool, shown: Projection)

  const START: State := State(None, false, Projection([], 0, false))

  function Omit(p: Projection): Projection {
    Projection(p.events, p.omitted + 1, true)
  }

  /** A row's header continues the report: decoded, and of this execution. */
  predicate HeaderOk(reader: Reader, command: bytes, attempt: bytes, st: State, line: bytes, count: nat) {
    && line != [] && |line| <= MAX_ROW_BYTES && !st.broken
    && var row := reader.decode(line);
    && row.Some? && row.value.command == command && row.value.attempt == attempt && row.value.sequence == count
    && row.value.pid != 0 && (st.pid.Some? ==> st.pid.value == row.value.pid) && row.value.contract == PROPOSED
  }

  function Next(reader: Reader, command: bytes, attempt: bytes, st: State, line: bytes, count: nat): State {
    if !HeaderOk(reader, command, attempt, st, line, count) then State(st.pid, true, Omit(st.shown))
    else
      var row := reader.decode(line).value;
      match Allowed(row, command)
      case None => State(Some(row.pid), st.broken, Omit(st.shown))
      case Some(k) =>
        State(Some(row.pid), st.broken,
              Projection(st.shown.events + [Event(count, command, StatusOf(k), ReasonOf(k))],
                         st.shown.omitted, st.shown.partial))
  }

  /** The state after the first `n` rows. */
  function After(reader: Reader, command: bytes, attempt: bytes, rows: seq<bytes>, n: nat): State
    requires n <= |rows|
  {
    if n == 0 then START
    else Next(reader, command, attempt, After(reader, command, attempt, rows, n - 1), rows[n - 1], n)
  }

  /** The complete lines of a report, and what follows the last of them. */
  function Rows(raw: bytes): seq<bytes>
    decreases |raw|
  {
    var k := Find(raw, NEWLINE);
    if k == |raw| then [] else [raw[..k]] + Rows(raw[k + 1..])
  }

  function Rest(raw: bytes): bytes
    decreases |raw|
  {
    var k := Find(raw, NEWLINE);
    if k == |raw| then raw else Rest(raw[k + 1..])
  }

  predicate Projectable(raw: bytes, command: bytes, attempt: bytes) {
    (command == INIT || command == RESUME || command == RUN) && AttemptShape(attempt) && 0 < |raw| <= MAX_BYTES
  }

  const WITHHELD: Projection := Projection([], 1, true)

  /** Rows that the loop reads, and whether anything is left after them. */
  function Consumed(raw: bytes): nat {
    Min(|Rows(raw)|, MAX_ROWS)
  }

  predicate Unread(raw: bytes) {
    |Rows(raw)| > MAX_ROWS || Rest(raw) != []
  }

  function Project(reader: Reader, raw: bytes, command: bytes, attempt: bytes): Projection {
    if !Projectable(raw, command, attempt) then WITHHELD
    else
      var shown := After(reader, command, attempt, Rows(raw), Consumed(raw)).shown;
      if Unread(raw) then Omit(shown) else shown
  }

  // ------------------------------------------------------------- the method

  /** The suffix of the input after `n` rows. */
  function Skip(raw: bytes, n: nat): bytes
    requires n <= |Rows(raw)|
    decreases n
  {
    if n == 0 then raw else Skip(raw[Find(raw, NEWLINE) + 1..], n - 1)
  }

  lemma {:induction false} SkipRows(raw: bytes, n: nat)
    requires n <= |Rows(raw)|
    ensures Rows(Skip(raw, n)) == Rows(raw)[n..] && Rest(Skip(raw, n)) == Rest(raw)
    decreases n
  {
    if n > 0 {
      SkipRows(raw[Find(raw, NEWLINE) + 1..], n - 1);
    }
  }

  lemma {:induction false} SkipMore(raw: bytes, n: nat)
    requires n < |Rows(raw)|
    ensures var k := Find(Skip(raw, n), NEWLINE);
            k < |Skip(raw, n)| && Skip(raw, n)[..k] == Rows(raw)[n] && Skip(raw, n + 1) == Skip(raw, n)[k + 1..]
    decreases n
  {
    if n > 0 {
      SkipMore(raw[Find(raw, NEWLINE) + 1..], n - 1);
    }
  }

  /** `project`, as the loop over the remaining input. */
  method ProjectReport(reader: Reader, raw: bytes, command: bytes, attempt: bytes) returns (r: Projection)
    ensures r == Project(reader, raw, command, attempt)
  {
    if !Projectable(raw, command, attempt) {
      return WITHHELD;
    }
    hide Next, Projectable, Find, Skip, AttemptShape;
    var remaining := raw;
    var st := START;
    var count := 0;
    SkipNone(raw);
    while remaining != []
      invariant count <= Consumed(raw) && remaining == Skip(raw, count)
      invariant st == After(reader, command, attempt, Rows(raw), count)
      decreases |remaining|
    {
      SkipRows(raw, count);
      if count == MAX_ROWS {
        StopsUnread(raw, count);
        return Omit(st.shown);
      }
      var end := Find(remaining, NEWLINE);
      if end == |remaining| {
        StopsUnread(raw, count);
        return Omit(st.shown);
      }
      SkipMore(raw, count);
      st := Next(reader, command, attempt, st, remaining[..end], count + 1);
      remaining := remaining[end + 1..];
      count := count + 1;
    }
    SkipRows(raw, count);
    r := st.shown;
  }

  lemma SkipNone(raw: bytes)
    ensures Skip(raw, 0) == raw
  {
  }

  lemma StopsUnread(raw: bytes, n: nat)
    requires n <= Consumed(raw) && Skip(raw, n) != []
    requires n == MAX_ROWS || Find(Skip(raw, n), NEWLINE) == |Skip(raw, n)|
    ensures n == Consumed(raw) && Unread(raw)
  {
    SkipRows(raw, n);
    hide Find, Skip;
    if Rows(Skip(raw, n)) != [] {
      assert |Rows(raw)| > n;
    }
  }

  // ------------------------------------------------- degrading with the input

  lemma AfterFirst(reader: Reader, command: bytes, attempt: bytes, rows: seq<bytes>)
    ensures After(reader, command, attempt, rows, 0) == State(None, false, Projection([], 0, false))
  {
  }

  lemma AfterNext(reader: Reader, command: bytes, attempt: bytes, rows: seq<bytes>, n: nat)
    requires n < |rows|
    ensures After(reader, command, attempt, rows, n + 1)
            == Next(reader, command, attempt, After(reader, command, attempt, rows, n), rows[n], n + 1)
  {
    hide Next;
  }

  /** A row either adds one event or is counted as omitted. */
  lemma NextCounts(reader: Reader, command: bytes, attempt: bytes, st: State, line: bytes, count: nat)
    ensures var to := Next(reader, command, attempt, st, line, count).shown;
            || (|to.events| == |st.shown.events| + 1 && to.events[..|st.shown.events|] == st.shown.events
                && to.omitted == st.shown.omitted && to.partial == st.shown.partial)
            || to == Projection(st.shown.events, st.shown.omitted + 1, true)
  {
    hide HeaderOk, Allowed, StatusOf, ReasonOf;
  }

  lemma {:induction false} Accounted(reader: Reader, command: bytes, attempt: bytes, rows: seq<bytes>, n: nat)
    requires n <= |rows|
    ensures var p := After(reader, command, attempt, rows, n).shown;
            |p.events| + p.omitted == n && (p.partial <==> p.omitted > 0)
  {
    hide *;
    AfterFirst(reader, command, attempt, rows);
    if n > 0 {
      Accounted(reader, command, attempt, rows, n - 1);
      AfterNext(reader, command, attempt, rows, n - 1);
      NextCounts(reader, command, attempt, After(reader, command, attempt, rows, n - 1), rows[n - 1], n);
    }
  }

  // ------------------------------------------------------ which rows are shown

  /** The row's header fits its place, and its process number is the first row's. */
  predicate HeaderFits(reader: Reader, command: bytes, attempt: bytes, rows: seq<bytes>, j: nat)
    requires j < |rows|
  {
    && rows[j] != [] && |rows[j]| <= MAX_ROW_BYTES
    && var row := reader.decode(rows[j]);
    && row.Some? && row.value.command == command && row.value.attempt == attempt && row.value.sequence == j + 1
    && row.value.pid != 0 && row.value.contract == PROPOSED
    && var first := reader.decode(rows[0]);
    && first.Some? && first.value.pid == row.value.pid
  }

  /** Row `i` has an allowed status, reason and details. */
  predicate RowAllowed(reader: Reader, command: bytes, rows: seq<bytes>, i: nat)
    requires i < |rows|
  {
    var row := reader.decode(rows[i]);
    row.Some? && Allowed(row.value, command).Some?
  }

  /** The header of every row up to `i` fits, and row `i` is allowed. */
  predicate Visible(reader: Reader, command: bytes, attempt: bytes, rows: seq<bytes>, i: nat)
    requires i < |rows|
  {
    (forall j :: 0 <= j <= i ==> HeaderFits(reader, command, attempt, rows, j)) && RowAllowed(reader, command, rows, i)
  }

  /** The event of a visible row. */
  function ShownAs(reader: Reader, command: bytes, line: bytes, sequence: nat): Event {
    match reader.decode(line)
    case None => Event(sequence, command, [], [])
    case Some(row) => Event(sequence, command, row.status, row.reason)
  }

  /** The events of the visible rows among the first `n`, in order. */
  function VisibleEvents(reader: Reader, command: bytes, attempt: bytes, rows: seq<bytes>, n: nat): seq<Event>
    requires n <= |rows|
  {
    if n == 0 then []
    else
      VisibleEvents(reader, command, attempt, rows, n - 1)
      + if Visible(reader, command, attempt, rows, n - 1) then [ShownAs(reader, command, rows[n - 1], n)] else []
  }

  /** The loop's state says whether all headers so far fit, and which process
      they name. */
  predicate Tracks(reader: Reader, command: bytes, attempt: bytes, rows: seq<bytes>, n: nat, st: State)
    requires n <= |rows|
  {
    && (st.broken <==> exists j :: 0 <= j < n && !HeaderFits(reader, command, attempt, rows, j))
    && (!st.broken ==> if n == 0 then st.pid.None? else
                         var first := reader.decode(rows[0]); first.Some? && st.pid == Some(first.value.pid))
  }

  lemma NextTracks(reader: Reader, command: bytes, attempt: bytes, rows: seq<bytes>, n: nat, st: State)
    requires n < |rows| && Tracks(reader, command, attempt, rows, n, st)
    ensures Tracks(reader, command, attempt, rows, n + 1, Next(reader, command, attempt, st, rows[n], n + 1))
    ensures HeaderOk(reader, command, attempt, st, rows[n], n + 1) <==>
            forall j :: 0 <= j <= n ==> HeaderFits(reader, command, attempt, rows, j)
  {
    HeaderOkFits(reader, command, attempt, rows, n, st);
    NextHeader(reader, command, attempt, st, rows[n], n + 1);
    if HeaderFits(reader, command, attempt, rows, n) {
      FirstPid(reader, command, attempt, rows, n);
    }
    hide HeaderFits, HeaderOk, Next;
    if !HeaderFits(reader, command, attempt, rows, n) {
      assert exists j :: 0 <= j < n + 1 && !HeaderFits(reader, command, attempt, rows, j);
    }
  }

  lemma HeaderOkFits(reader: Reader, command: bytes, attempt: bytes, rows: seq<bytes>, n: nat, st: State)
    requires n < |rows| && Tracks(reader, command, attempt, rows, n, st)
    ensures HeaderOk(reader, command, attempt, st, rows[n], n + 1) <==>
            !st.broken && HeaderFits(reader, command, attempt, rows, n)
  {
  }

  lemma NextHeader(reader: Reader, command: bytes, attempt: bytes, st: State, line: bytes, count: nat)
    ensures var to := Next(reader, command, attempt, st, line, count);
            if HeaderOk(reader, command, attempt, st, line, count)
            then reader.decode(line).Some? && !to.broken && to.pid == Some(reader.decode(line).value.pid)
            else to.broken
  {
    hide Allowed, StatusOf, ReasonOf;
  }

  lemma FirstPid(reader: Reader, command: bytes, attempt: bytes, rows: seq<bytes>, n: nat)
    requires n < |rows| && HeaderFits(reader, command, attempt, rows, n)
    ensures var first := reader.decode(rows[0]);
            var row := reader.decode(rows[n]);
            first.Some? && row.Some? && first.value.pid == row.value.pid
  {
  }

  lemma NextEvents(reader: Reader, command: bytes, attempt: bytes, rows: seq<bytes>, n: nat, st: State)
    requires n < |rows|
    ensures var fits := HeaderOk(reader, command, attempt, st, rows[n], n + 1);
            Next(reader, command, attempt, st, rows[n], n + 1).shown.events ==
            st.shown.events + if fits && RowAllowed(reader, command, rows, n)
                              then [ShownAs(reader, command, rows[n], n + 1)] else []
  {
    hide StatusOf, ReasonOf, KindOf, CommandAllows, ShapeOk;
    var row := reader.decode(rows[n]);
    if row.Some? {
      KindIs(row.value.status, row.value.reason);
    }
  }

  lemma {:induction false} ShownVisible(reader: Reader, command: bytes, attempt: bytes, rows: seq<bytes>, n: nat)
    requires n <= |rows|
    ensures var st := After(reader, command, attempt, rows, n);
            Tracks(reader, command, attempt, rows, n, st)
            && st.shown.events == VisibleEvents(reader, command, attempt, rows, n)
  {
    hide HeaderFits, RowAllowed, HeaderOk, Next, ShownAs, Tracks;
    if n > 0 {
      ShownVisible(reader, command, attempt, rows, n - 1);
      var st := After(reader, command, attempt, rows, n - 1);
      NextTracks(reader, command, attempt, rows, n - 1, st);
      NextEvents(reader, command, attempt, rows, n - 1, st);
    } else {
      TracksNone(reader, command, attempt, rows);
    }
  }

  lemma TracksNone(reader: Reader, command: bytes, attempt: bytes, rows: seq<bytes>)
    ensures Tracks(reader, command, attempt, rows, 0, START)
  {
  }

  /** The projection shows exactly the rows that are allowed and that follow only
      rows whose headers fit, in order and by fixed words alone. */
  lemma ProjectShows(reader: Reader, raw: bytes, command: bytes, attempt: bytes)
    requires Projectable(raw, command, attempt)
    ensures Project(reader, raw, command, attempt).events
            == VisibleEvents(reader, command, attempt, Rows(raw), Consumed(raw))
  {
    hide Projectable, After, Rows, Unread, VisibleEvents;
    ShownVisible(reader, command, attempt, Rows(raw), Consumed(raw));
  }

  /** Every row is either shown or counted as omitted, one more stands for an
      unread remainder, and partial says exactly that something was omitted. */
  lemma Counted(reader: Reader, raw: bytes, command: bytes, attempt: bytes)
    ensures var p := Project(reader, raw, command, attempt);
            && (p.partial <==> p.omitted > 0)
            && (Projectable(raw, command, attempt) ==>
                  |p.events| + p.omitted == Consumed(raw) + if Unread(raw) then 1 else 0)
  {
    hide Projectable, After, Unread;
    Accounted(reader, command, attempt, Rows(raw), Consumed(raw));
  }

  lemma {:induction false} EventsGrow(reader: Reader, command: bytes, attempt: bytes, rows: seq<bytes>, m: nat, n: nat)
    requires m <= n <= |rows|
    ensures After(reader, command, attempt, rows, m).shown.events <= After(reader, command, attempt, rows, n).shown.events
    decreases n
  {
    hide HeaderOk, Allowed, StatusOf, ReasonOf;
    if m < n {
      EventsGrow(reader, command, attempt, rows, m, n - 1);
    }
  }

  /** After a broken header nothing more is shown, however the report goes on. */
  lemma {:induction false} NothingAfterBreak(reader: Reader, command: bytes, attempt: bytes, rows: seq<bytes>,
                                             m: nat, n: nat)
    requires m <= n <= |rows| && After(reader, command, attempt, rows, m).broken
    ensures After(reader, command, attempt, rows, n).broken
    ensures After(reader, command, attempt, rows, n).shown.events == After(reader, command, attempt, rows, m).shown.events
    decreases n
  {
    hide Allowed, StatusOf, ReasonOf;
    if m < n {
      NothingAfterBreak(reader, command, attempt, rows, m, n - 1);
    }
  }

  lemma {:induction false} SameRows(reader: Reader, command: bytes, attempt: bytes, a: seq<bytes>, b: seq<bytes>, n: nat)
    requires n <= |a| && a <= b
    ensures After(reader, command, attempt, a, n) == After(reader, command, attempt, b, n)
    decreases n
  {
    hide Next;
    if n > 0 {
      SameRows(reader, command, attempt, a, b, n - 1);
    }
  }

  lemma RowsUnfold(raw: bytes)
    ensures var k := Find(raw, NEWLINE);
            Rows(raw) == if k == |raw| then [] else [raw[..k]] + Rows(raw[k + 1..])
  {
    hide Find;
  }

  lemma {:induction false} RowsOfPrefix(raw: bytes, cut: nat)
    requires cut <= |raw|
    ensures Rows(raw[..cut]) <= Rows(raw)
    decreases |raw|
  {
    hide Rows, Find;
    var a := raw[..cut];
    var k := Find(a, NEWLINE);
    RowsUnfold(a);
    RowsUnfold(raw);
    if k < |a| {
      FindIs(raw, NEWLINE, k);
      assert a[..k] == raw[..k];
      assert a[k + 1..] == raw[k + 1..][..cut - k - 1];
      RowsOfPrefix(raw[k + 1..], cut - k - 1);
    }
  }

  /** Cutting a report short only takes events away from the end. */
  lemma PrefixEvents(reader: Reader, raw: bytes, cut: nat, command: bytes, attempt: bytes)
    requires cut <= |raw| <= MAX_BYTES
    ensures Project(reader, raw[..cut], command, attempt).events <= Project(reader, raw, command, attempt).events
  {
    hide After, Rows, Rest, AttemptShape, Find;
    RowsOfPrefix(raw, cut);
    var n := Consumed(raw[..cut]);
    SameRows(reader, command, attempt, Rows(raw[..cut]), Rows(raw), n);
    EventsGrow(reader, command, attempt, Rows(raw), n, Consumed(raw));
  }
}
