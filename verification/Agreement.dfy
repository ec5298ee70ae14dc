/** The projection agrees with the acceptors: it shows every row of a report they
    accept, unless a record in it was written as a JSON array. The acceptors
    decode such a record all the same; the projection looks for an object. */
module Agreement {
  import opened Prelude
  import opened Reports
  import opened Acceptors

  // ---------------------------------------------------------------- the lines

  /** Of a text that ends a line, the cut lines are its complete rows. */
  lemma {:induction false} LinesAreRows(raw: bytes)
    requires EndsLine(raw)
    ensures Split(raw[..|raw| - 1]) == Rows(raw) && Rest(raw) == []
    decreases |raw|
  {
    hide Find;
    hide Rows;
    var cut := raw[..|raw| - 1];
    var k := Find(raw, NEWLINE);
    RowsUnfold(raw);
    if k < |raw| - 1 {
      FindIs(cut, NEWLINE, k);
      assert cut[..k] == raw[..k];
      assert cut[k + 1..] == raw[k + 1..][..|raw| - k - 2];
      LinesAreRows(raw[k + 1..]);
    } else {
      assert k == |raw| - 1;
      FindIs(cut, NEWLINE, |cut|);
      RowsUnfold([]);
      assert raw[k + 1..] == [];
      assert raw[..k] == cut;
    }
  }

  /** Events for the rows from `from` up to `n`. */
  function EventsOf(reader: Reader, command: bytes, lines: seq<bytes>, from: nat, n: nat): (r: seq<Event>)
    requires from <= n <= |lines|
    ensures |r| == n - from
  {
    if n == from then [] else EventsOf(reader, command, lines, from, n - 1) + [ShownAs(reader, command, lines[n - 1], n)]
  }

  /** The row's build identity is an object. */
  predicate ObjectBuild(reader: Reader, line: bytes) {
    var row := reader.decode(line);
    row.Some? && Fields(row.value.details, {K_BUILD}).Some? && K_BUILD in row.value.details.fields
    && row.value.details.fields[K_BUILD].Object?
  }

  // ---------------------------------------------------------- one row of a run

  lemma DetailsShaped(reader: Reader, e: Expected, genesis: bytes, k: Kind, v: Value)
    requires Scope(e) && Hash0x(genesis) && DetailsAre(reader, e, genesis, k, v)
    ensures CommandAllows(k, RUN)
    ensures ShapeOk(k, v) <==> (k.Checking? ==> v.fields[K_BUILD].Object?)
  {
    hide Hash0x, IsHash, NodeIdentity, BackendOk, Uuid, Closed;
  }

  lemma RunHeader(reader: Reader, e: Expected, genesis: bytes, st: RunState, line: bytes, index: nat)
    requires RunStep(reader, e, genesis, st, line, index).Some?
    ensures line != [] && |line| <= MAX_ROW_BYTES && reader.decode(line).Some?
    ensures var row := reader.decode(line).value;
            && HeaderIs(row, RUN, e, index + 1) && KindOf(row.status, row.reason).Some?
            && DetailsAre(reader, e, genesis, KindOf(row.status, row.reason).value, row.details)
  {
    hide KindOf, DetailsAre, HeaderIs, MayFollow;
  }

  /** How the projection takes a row of a run that the acceptor takes. */
  lemma RunRowShown(reader: Reader, e: Expected, genesis: bytes, st: RunState, line: bytes, index: nat, from: State)
    requires RunStep(reader, e, genesis, st, line, index).Some?
    requires Scope(e) && Hash0x(genesis) && e.pid != 0 && !from.broken && (from.pid.Some? ==> from.pid.value == e.pid)
    ensures var to := Next(reader, RUN, e.attempt, from, line, index + 1);
            to == State(Some(e.pid), false,
                        if KindAt(reader, line) == Some(Checking) && !ObjectBuild(reader, line) then Omit(from.shown)
                        else Projection(from.shown.events + [ShownAs(reader, RUN, line, index + 1)],
                                        from.shown.omitted, from.shown.partial))
  {
    hide *;
    RunHeader(reader, e, genesis, st, line, index);
    HeaderContinues(reader, RUN, e, line, index + 1, from);
    RunAllowed(reader, e, genesis, line);
    NextShows(reader, RUN, e.attempt, from, line, index + 1);
    DecodedKind(reader, line);
  }

  lemma DecodedKind(reader: Reader, line: bytes)
    requires reader.decode(line).Some?
    ensures var row := reader.decode(line).value; KindAt(reader, line) == KindOf(row.status, row.reason)
  {
    hide KindOf;
  }

  lemma HeaderContinues(reader: Reader, command: bytes, e: Expected, line: bytes, count: nat, from: State)
    requires line != [] && |line| <= MAX_ROW_BYTES && reader.decode(line).Some?
    requires HeaderIs(reader.decode(line).value, command, e, count)
    requires e.pid != 0 && !from.broken && (from.pid.Some? ==> from.pid.value == e.pid)
    ensures HeaderOk(reader, command, e.attempt, from, line, count) && reader.decode(line).value.pid == e.pid
  {
  }

  lemma RunAllowed(reader: Reader, e: Expected, genesis: bytes, line: bytes)
    requires reader.decode(line).Some? && Scope(e) && Hash0x(genesis)
    requires var row := reader.decode(line).value;
             KindOf(row.status, row.reason).Some?
             && DetailsAre(reader, e, genesis, KindOf(row.status, row.reason).value, row.details)
    ensures var row := reader.decode(line).value;
            var k := KindOf(row.status, row.reason).value;
            Allowed(row, RUN) == if k == Checking && !ObjectBuild(reader, line) then None else Some(k)
  {
    hide KindOf, DetailsAre, Scope, Hash0x, ShapeOk, CommandAllows, Fields;
    var row := reader.decode(line).value;
    var k := KindOf(row.status, row.reason).value;
    DetailsShaped(reader, e, genesis, k, row.details);
    if k == Checking {
      CheckingBuild(reader, e, genesis, row.details);
    }
  }

  lemma NextShows(reader: Reader, command: bytes, attempt: bytes, from: State, line: bytes, count: nat)
    requires HeaderOk(reader, command, attempt, from, line, count) && reader.decode(line).Some?
    ensures var row := reader.decode(line).value;
            Next(reader, command, attempt, from, line, count)
            == State(Some(row.pid), from.broken,
                     if Allowed(row, command).None? then Omit(from.shown)
                     else Projection(from.shown.events + [ShownAs(reader, command, line, count)],
                                     from.shown.omitted, from.shown.partial))
  {
    hide HeaderOk, KindOf, CommandAllows, ShapeOk, StatusOf, ReasonOf;
    var row := reader.decode(line).value;
    KindIs(row.status, row.reason);
  }

  lemma CheckingBuild(reader: Reader, e: Expected, genesis: bytes, v: Value)
    requires DetailsAre(reader, e, genesis, Checking, v)
    ensures v.Object? && K_BUILD in v.fields && Fields(v, {K_BUILD}).Some?
  {
  }

  /** The state the projection reaches on the first `n` rows of an accepted run:
      it has hidden the first row exactly when its build is not an object. */
  function Mirror(reader: Reader, e: Expected, lines: seq<bytes>, n: nat): State
    requires n <= |lines|
  {
    if n == 0 then START
    else
      var hidden := if ObjectBuild(reader, lines[0]) then 0 else 1;
      State(Some(e.pid), false, Projection(EventsOf(reader, RUN, lines, hidden, n), hidden, hidden == 1))
  }

  lemma {:induction false} Lockstep(reader: Reader, e: Expected, genesis: bytes, lines: seq<bytes>, n: nat)
    requires n <= |lines| && RunAfter(reader, e, genesis, lines, n).Some?
    requires Scope(e) && Hash0x(genesis) && e.pid != 0
    ensures After(reader, RUN, e.attempt, lines, n) == Mirror(reader, e, lines, n)
  {
    hide *;
    hide Next;
    AfterFirst(reader, RUN, e.attempt, lines);
    if n == 0 {
      MirrorFirst(reader, e, lines);
    } else {
      RunNext(reader, e, genesis, lines, n);
      var st := RunAfter(reader, e, genesis, lines, n - 1).value;
      Lockstep(reader, e, genesis, lines, n - 1);
      MirrorState(reader, e, lines, n - 1);
      CheckingFirst(reader, e, genesis, lines, n);
      RunRowShown(reader, e, genesis, st, lines[n - 1], n - 1, Mirror(reader, e, lines, n - 1));
      AfterNext(reader, RUN, e.attempt, lines, n - 1);
      MirrorNext(reader, e, lines, n);
    }
  }

  lemma MirrorFirst(reader: Reader, e: Expected, lines: seq<bytes>)
    ensures Mirror(reader, e, lines, 0) == State(None, false, Projection([], 0, false))
  {
  }

  lemma MirrorState(reader: Reader, e: Expected, lines: seq<bytes>, n: nat)
    requires n <= |lines|
    ensures var st := Mirror(reader, e, lines, n); !st.broken && (st.pid.Some? ==> st.pid.value == e.pid)
  {
  }

  lemma RunNext(reader: Reader, e: Expected, genesis: bytes, lines: seq<bytes>, n: nat)
    requires 0 < n <= |lines| && RunAfter(reader, e, genesis, lines, n).Some?
    ensures RunAfter(reader, e, genesis, lines, n - 1).Some?
    ensures RunStep(reader, e, genesis, RunAfter(reader, e, genesis, lines, n - 1).value, lines[n - 1], n - 1).Some?
  {
    hide RunStep;
  }

  lemma CheckingFirst(reader: Reader, e: Expected, genesis: bytes, lines: seq<bytes>, n: nat)
    requires 0 < n <= |lines| && RunAfter(reader, e, genesis, lines, n).Some?
    ensures KindAt(reader, lines[n - 1]) == Some(Checking) <==> n == 1
  {
    hide KindAt, RunStep;
    FollowsCourse(reader, e, genesis, lines, n);
  }

  lemma MirrorNext(reader: Reader, e: Expected, lines: seq<bytes>, n: nat)
    requires 0 < n <= |lines|
    ensures var from := Mirror(reader, e, lines, n - 1).shown;
            Mirror(reader, e, lines, n)
            == State(Some(e.pid), false,
                     if n == 1 && !ObjectBuild(reader, lines[n - 1]) then Omit(from)
                     else Projection(from.events + [ShownAs(reader, RUN, lines[n - 1], n)], from.omitted, from.partial))
  {
    hide ObjectBuild, ShownAs;
  }

  // --------------------------------------------------------------- run reports

  /** What the projection of an accepted run report is, in full. */
  lemma RunProjected(codec: Codec, raw: bytes, journal: bytes, e: Expected, genesis: bytes)
    requires RunResult(codec, raw, journal, e, genesis).Some?
    ensures var rows := Rows(raw);
            var hidden := if |rows| > 0 && ObjectBuild(codec.reader, rows[0]) then 0 else 1;
            && 1 <= |rows| <= 5 && hidden <= |rows|
            && Project(codec.reader, raw, RUN, e.attempt)
               == Projection(EventsOf(codec.reader, RUN, rows, hidden, |rows|), hidden, hidden == 1)
  {
    hide Scope, Hash0x, JournalIs, AttemptShape, After, RunAfter, Split, EventsOf, ObjectBuild, EndsLine;
    LinesAreRows(raw);
    var lines := Split(raw[..|raw| - 1]);
    Lockstep(codec.reader, e, genesis, lines, |lines|);
    FollowsCourse(codec.reader, e, genesis, lines, |lines|);
    EndsLineNonEmpty(raw);
  }

  lemma EndsLineNonEmpty(raw: bytes)
    requires EndsLine(raw)
    ensures raw != []
  {
  }

  /** An accepted run report projects cleanly, with one event for each row,
      exactly when its build identity is written as an object. */
  lemma RunAgrees(codec: Codec, raw: bytes, journal: bytes, e: Expected, genesis: bytes)
    requires RunResult(codec, raw, journal, e, genesis).Some?
    ensures var p := Project(codec.reader, raw, RUN, e.attempt);
            var clean := |Rows(raw)| > 0 && ObjectBuild(codec.reader, Rows(raw)[0]);
            && (!p.partial <==> clean) && (p.omitted == 0 <==> clean) && (|p.events| == |Rows(raw)| <==> clean)
  {
    hide Project, RunResult, Rows, ObjectBuild, EventsOf;
    RunProjected(codec, raw, journal, e, genesis);
  }

  /** The last event is the accepted status and reason, unless the only row is the
      hidden one. */
  lemma RunLast(codec: Codec, raw: bytes, journal: bytes, e: Expected, genesis: bytes)
    requires RunResult(codec, raw, journal, e, genesis).Some?
    ensures var p := Project(codec.reader, raw, RUN, e.attempt);
            var r := RunResult(codec, raw, journal, e, genesis).value;
            && (p.events != [] ==> p.events[|p.events| - 1] == Event(r.sequence, RUN, r.status, r.reason))
            && (p.events == [] <==> |Rows(raw)| == 1 && !ObjectBuild(codec.reader, Rows(raw)[0]))
  {
    hide Project, Rows, ObjectBuild, RunGuard, RunAfter, Split, KindAt, StatusOf, ReasonOf;
    RunProjected(codec, raw, journal, e, genesis);
    GuardEnds(codec, raw, journal, e, genesis);
    LinesAreRows(raw);
    var rows := Rows(raw);
    FollowsCourse(codec.reader, e, genesis, rows, |rows|);
    LastEvent(codec.reader, rows[|rows| - 1], |rows|);
  }

  lemma GuardEnds(codec: Codec, raw: bytes, journal: bytes, e: Expected, genesis: bytes)
    requires RunGuard(codec, raw, journal, e, genesis)
    ensures EndsLine(raw)
  {
  }

  lemma LastEvent(reader: Reader, line: bytes, sequence: nat)
    ensures var k := KindAt(reader, line);
            k.Some? ==> ShownAs(reader, RUN, line, sequence) == Event(sequence, RUN, StatusOf(k.value), ReasonOf(k.value))
  {
    hide StatusOf, ReasonOf, KindOf;
    var row := reader.decode(line);
    if row.Some? {
      KindIs(row.value.status, row.value.reason);
    }
  }

  // -------------------------------------------------------------- init reports

  /** The row's details, and the build identity of the first row, are objects. */
  predicate PlainRow(reader: Reader, line: bytes, index: nat) {
    var row := reader.decode(line);
    row.Some? && row.value.details.Object? && (index == 0 ==> ObjectBuild(reader, line))
  }

  /** A projection that shows the plain rows among the first `n`. */
  function PlainRows(reader: Reader, command: bytes, lines: seq<bytes>, n: nat): Projection
    requires n <= |lines|
  {
    if n == 0 then Projection([], 0, false)
    else
      var p := PlainRows(reader, command, lines, n - 1);
      if PlainRow(reader, lines[n - 1], n - 1)
      then Projection(p.events + [ShownAs(reader, command, lines[n - 1], n)], p.omitted, p.partial)
      else Omit(p)
  }

  /** The acceptor's test of row `index`. */
  predicate InitRow(reader: Reader, command: bytes, e: Expected, genesis: bytes, line: bytes, index: nat) {
    match index
    case 0 => CheckingRow(reader, command, e, line)
    case 1 => StartingRow(reader, command, e, line)
    case _ => InitializedRow(reader, command, e, genesis, line)
  }

  const INIT_COURSE: seq<Kind> := [Checking, Starting, Initialized]

  lemma InitHeader(reader: Reader, command: bytes, e: Expected, genesis: bytes, line: bytes, index: nat)
    requires index < 3 && InitRow(reader, command, e, genesis, line, index)
    ensures line != [] && |line| <= MAX_ROW_BYTES && reader.decode(line).Some?
    ensures RowIs(reader.decode(line).value, command, e, INIT_COURSE[index], index + 1)
  {
    hide RowIs, Typed;
  }

  lemma TypedIs(v: Value, keys: seq<bytes>, all: set<bytes>)
    requires Typed(v, keys).Some? && all == (set k | k in keys)
    ensures |Typed(v, keys).value| == |keys| && Fields(v, all).Some? == v.Object?
    ensures v.Object? ==>
              forall i :: 0 <= i < |keys| ==> keys[i] in v.fields && Typed(v, keys).value[i] == v.fields[keys[i]]
  {
  }

  lemma CheckingDetails(reader: Reader, command: bytes, e: Expected, line: bytes)
    requires CheckingRow(reader, command, e, line) && reader.decode(line).Some?
    ensures ShapeOk(Checking, reader.decode(line).value.details) <==> PlainRow(reader, line, 0)
  {
    hide RowIs, Typed, Fields;
    var v := reader.decode(line).value.details;
    TypedIs(v, CHECKING_FIELDS, {K_BUILD});
    if v.Object? {
      assert CHECKING_FIELDS[0] in v.fields;
    }
    FieldsObject(v, {K_BUILD});
  }

  lemma FieldsObject(v: Value, keys: set<bytes>)
    ensures Fields(v, keys).Some? ==> v.Object?
  {
  }

  lemma StartingDetails(reader: Reader, command: bytes, e: Expected, line: bytes)
    requires StartingRow(reader, command, e, line) && reader.decode(line).Some? && BackendOk(e.backend)
    ensures ShapeOk(Starting, reader.decode(line).value.details) <==> reader.decode(line).value.details.Object?
  {
    hide RowIs, Typed, Fields, BackendOk;
    var v := reader.decode(line).value.details;
    TypedIs(v, STARTING_FIELDS, {K_BACKEND});
    if v.Object? {
      assert STARTING_FIELDS[0] in v.fields;
    }
    FieldsObject(v, {K_BACKEND});
  }

  lemma InitializedDetails(reader: Reader, command: bytes, e: Expected, genesis: bytes, line: bytes)
    requires InitializedRow(reader, command, e, genesis, line) && reader.decode(line).Some?
    requires Hash0x(genesis) && IsHash(e.chain, 64) && NodeIdentity(e.node)
    ensures ShapeOk(Initialized, reader.decode(line).value.details) <==> reader.decode(line).value.details.Object?
  {
    hide RowIs, Typed, Fields, Hash0x, IsHash, NodeIdentity;
    var v := reader.decode(line).value.details;
    TypedIs(v, INITIALIZED_FIELDS, IDENTITY_KEYS);
    if v.Object? {
      assert INITIALIZED_FIELDS[0] in v.fields && INITIALIZED_FIELDS[1] in v.fields && INITIALIZED_FIELDS[2] in v.fields;
    }
    FieldsObject(v, IDENTITY_KEYS);
  }

  lemma InitAllowed(reader: Reader, command: bytes, e: Expected, genesis: bytes, line: bytes, index: nat)
    requires index < 3 && InitRow(reader, command, e, genesis, line, index) && Scope(e) && Hash0x(genesis)
    requires reader.decode(line).Some? && (command == INIT || command == RESUME)
    requires RowIs(reader.decode(line).value, command, e, INIT_COURSE[index], index + 1)
    ensures Allowed(reader.decode(line).value, command).Some? <==> PlainRow(reader, line, index)
  {
    hide CheckingRow, StartingRow, InitializedRow, ShapeOk, ObjectBuild, BackendOk, IsHash, NodeIdentity, Hash0x, HeaderIs;
    hide StatusOf, ReasonOf, KindOf;
    InitKinds(INIT_COURSE[index], command);
    match index {
      case 0 => CheckingDetails(reader, command, e, line);
      case 1 => StartingDetails(reader, command, e, line);
      case _ => InitializedDetails(reader, command, e, genesis, line);
    }
  }

  lemma InitKinds(k: Kind, command: bytes)
    requires k in INIT_COURSE && (command == INIT || command == RESUME)
    ensures KindOf(StatusOf(k), ReasonOf(k)) == Some(k) && CommandAllows(k, command)
  {
  }

  /** How the projection takes a row that the init acceptor takes. */
  lemma InitRowShown(reader: Reader, command: bytes, e: Expected, genesis: bytes, line: bytes, index: nat, from: State)
    requires index < 3 && InitRow(reader, command, e, genesis, line, index) && InitGuard(e, command) && Hash0x(genesis)
    requires !from.broken && (from.pid.Some? ==> from.pid.value == e.pid)
    ensures Next(reader, command, e.attempt, from, line, index + 1)
            == State(Some(e.pid), false,
                     if PlainRow(reader, line, index)
                     then Projection(from.shown.events + [ShownAs(reader, command, line, index + 1)],
                                     from.shown.omitted, from.shown.partial)
                     else Omit(from.shown))
  {
    hide RowIs, InitRow, HeaderOk, HeaderIs, Allowed, Scope, Hash0x, AttemptShape, ShownAs, PlainRow, Next, Omit;
    InitHeader(reader, command, e, genesis, line, index);
    RowHeader(reader.decode(line).value, command, e, INIT_COURSE[index], index + 1);
    HeaderContinues(reader, command, e, line, index + 1, from);
    InitAllowed(reader, command, e, genesis, line, index);
    NextShows(reader, command, e.attempt, from, line, index + 1);
  }

  lemma RowHeader(row: Row, command: bytes, e: Expected, k: Kind, sequence: nat)
    requires RowIs(row, command, e, k, sequence)
    ensures HeaderIs(row, command, e, sequence)
  {
  }

  lemma {:induction false} InitLockstep(reader: Reader, command: bytes, e: Expected, genesis: bytes,
                                        lines: seq<bytes>, n: nat)
    requires |lines| == 3 && n <= 3 && InitGuard(e, command) && Hash0x(genesis)
    requires forall i :: 0 <= i < 3 ==> InitRow(reader, command, e, genesis, lines[i], i)
    ensures After(reader, command, e.attempt, lines, n)
            == State(if n == 0 then None else Some(e.pid), false, PlainRows(reader, command, lines, n))
  {
    hide Next, InitRow, InitGuard, Hash0x, PlainRow, ShownAs, Omit;
    if n > 0 {
      InitLockstep(reader, command, e, genesis, lines, n - 1);
      InitRowShown(reader, command, e, genesis, lines[n - 1], n - 1, After(reader, command, e.attempt, lines, n - 1));
    }
  }

  /** What the projection of an accepted init report is, in full. */
  lemma InitProjected(codec: Codec, stdout: bytes, raw: bytes, journal: bytes, e: Expected, command: bytes)
    requires InitResult(codec, stdout, raw, journal, e, command).Some?
    ensures |Rows(raw)| == 3
    ensures Project(codec.reader, raw, command, e.attempt) == PlainRows(codec.reader, command, Rows(raw), 3)
  {
    hide *;
    hide Rows;
    InitRowsAccepted(codec, stdout, raw, journal, e, command);
    var genesis := InitResult(codec, stdout, raw, journal, e, command).value;
    LinesAreRows(raw);
    InitLockstep(codec.reader, command, e, genesis, Rows(raw), 3);
    ProjectAll(codec.reader, raw, command, e.attempt);
  }

  lemma InitRowsAccepted(codec: Codec, stdout: bytes, raw: bytes, journal: bytes, e: Expected, command: bytes)
    requires InitResult(codec, stdout, raw, journal, e, command).Some?
    ensures var genesis := InitResult(codec, stdout, raw, journal, e, command).value;
            && InitGuard(e, command) && Hash0x(genesis) && EndsLine(raw) && Projectable(raw, command, e.attempt)
            && var lines := Split(raw[..|raw| - 1]);
               |lines| == 3 && forall i :: 0 <= i < 3 ==> InitRow(codec.reader, command, e, genesis, lines[i], i)
  {
    hide Hash0x, Split, AttemptShape, Scope, CheckingRow, StartingRow, InitializedRow, JournalIs;
  }

  lemma ProjectAll(reader: Reader, raw: bytes, command: bytes, attempt: bytes)
    requires Projectable(raw, command, attempt) && Rest(raw) == [] && |Rows(raw)| == 3
    ensures Project(reader, raw, command, attempt) == After(reader, command, attempt, Rows(raw), |Rows(raw)|).shown
  {
    hide Projectable, Rows, Rest, After;
  }

  /** An accepted init report projects cleanly, with its three rows in order,
      exactly when each of its rows is plain. */
  lemma InitAgrees(codec: Codec, stdout: bytes, raw: bytes, journal: bytes, e: Expected, command: bytes)
    requires InitResult(codec, stdout, raw, journal, e, command).Some?
    ensures |Rows(raw)| == 3
    ensures var p := Project(codec.reader, raw, command, e.attempt);
            var clean := forall i :: 0 <= i < 3 ==> PlainRow(codec.reader, Rows(raw)[i], i);
            && (!p.partial <==> clean) && (p.omitted == 0 <==> clean)
            && (clean ==> p.events == seq(3, i requires 0 <= i < 3 =>
                                               Event(i + 1, command, StatusOf(INIT_COURSE[i]), ReasonOf(INIT_COURSE[i]))))
  {
    hide Project, PlainRow, PlainRows, InitResult, ShownAs, Rows, StatusOf, ReasonOf, InitGuard, Hash0x, EndsLine, Projectable, RowIs, InitRow, Split;
    InitProjected(codec, stdout, raw, journal, e, command);
    PlainCounts(codec.reader, command, Rows(raw));
    InitRowsAccepted(codec, stdout, raw, journal, e, command);
    LinesAreRows(raw);
    var genesis := InitResult(codec, stdout, raw, journal, e, command).value;
    forall i | 0 <= i < 3
      ensures ShownAs(codec.reader, command, Rows(raw)[i], i + 1)
              == Event(i + 1, command, StatusOf(INIT_COURSE[i]), ReasonOf(INIT_COURSE[i]))
    {
      InitHeader(codec.reader, command, e, genesis, Rows(raw)[i], i);
      InitEvent(codec.reader, command, e, Rows(raw)[i], i);
    }
  }

  lemma InitEvent(reader: Reader, command: bytes, e: Expected, line: bytes, index: nat)
    requires index < 3 && reader.decode(line).Some?
    requires RowIs(reader.decode(line).value, command, e, INIT_COURSE[index], index + 1)
    ensures ShownAs(reader, command, line, index + 1)
            == Event(index + 1, command, StatusOf(INIT_COURSE[index]), ReasonOf(INIT_COURSE[index]))
  {
    hide StatusOf, ReasonOf, HeaderIs;
  }

  lemma PlainCounts(reader: Reader, command: bytes, lines: seq<bytes>)
    requires |lines| == 3
    ensures var p := PlainRows(reader, command, lines, 3);
            var clean := forall i :: 0 <= i < 3 ==> PlainRow(reader, lines[i], i);
            && (p.partial <==> !clean) && (p.omitted > 0 <==> !clean)
            && (clean ==> p.events == seq(3, i requires 0 <= i < 3 => ShownAs(reader, command, lines[i], i + 1)))
  {
    hide PlainRow, ShownAs;
    PlainNext(reader, command, lines, 1);
    PlainNext(reader, command, lines, 2);
    PlainNext(reader, command, lines, 3);
    assert PlainRows(reader, command, lines, 0) == Projection([], 0, false);
  }

  lemma PlainNext(reader: Reader, command: bytes, lines: seq<bytes>, n: nat)
    requires 0 < n <= |lines|
    ensures var p := PlainRows(reader, command, lines, n - 1);
            PlainRows(reader, command, lines, n)
            == if PlainRow(reader, lines[n - 1], n - 1)
               then Projection(p.events + [ShownAs(reader, command, lines[n - 1], n)], p.omitted, p.partial)
               else Projection(p.events, p.omitted + 1, true)
  {
    hide PlainRow, ShownAs;
  }

  // ------------------------------------------------------- the array form

  /** A newline between lines, one at the end. */
  function Report(lines: seq<bytes>): bytes {
    if lines == [] then [] else lines[0] + [NEWLINE] + Report(lines[1..])
  }

  predicate PlainLine(line: bytes) {
    line != [] && |line| <= MAX_ROW_BYTES && NEWLINE !in line
  }

  lemma {:induction false} ReportSplits(lines: seq<bytes>)
    requires lines != [] && forall line <- lines :: PlainLine(line)
    ensures var raw := Report(lines); EndsLine(raw) && Split(raw[..|raw| - 1]) == lines
    decreases |lines|
  {
    hide Find, Split;
    var line, rest := lines[0], Report(lines[1..]);
    var raw := Report(lines);
    assert line in lines;
    if |lines| == 1 {
      assert Report(lines[1..]) == [];
      assert raw == line + [NEWLINE] && raw[..|raw| - 1] == line;
      SplitsLast(line);
    } else {
      ReportSplits(lines[1..]);
      assert raw[..|raw| - 1] == line + [NEWLINE] + rest[..|rest| - 1];
      SplitsFirst(line, rest[..|rest| - 1]);
    }
  }

  lemma SplitsLast(line: bytes)
    requires NEWLINE !in line
    ensures Split(line) == [line]
  {
    FindIs(line, NEWLINE, |line|);
    hide Find;
  }

  lemma SplitsFirst(line: bytes, rest: bytes)
    requires NEWLINE !in line
    ensures Split(line + [NEWLINE] + rest) == [line] + Split(rest)
  {
    hide Find;
    var s := line + [NEWLINE] + rest;
    FindIs(s, NEWLINE, |line|);
    assert s[..|line|] == line && s[|line| + 1..] == rest;
  }

  /** The row of an execution that has this kind, place and details. */
  function RowOf(e: Expected, command: bytes, k: Kind, sequence: nat, details: Value): Row {
    Row(e.attempt, command, sequence, e.pid, StatusOf(k), ReasonOf(k), PROPOSED, details)
  }

  /** A run report that the acceptor takes and the projection withholds, for any
      reader and any execution: one checking row that gives the build identity as an
      array, which the reader takes for the expected identity. */
  lemma ArrayBuildWithheld(codec: Codec, line: bytes, journal: bytes, e: Expected, genesis: bytes, items: seq<Value>)
    requires PlainLine(line) && Scope(e) && Hash0x(genesis) && e.pid != 0 && AttemptShape(e.attempt)
    requires JournalIs(codec, journal, e, genesis) && codec.reader.identifies(Array(items))
    requires codec.reader.decode(line) == Some(RowOf(e, RUN, Checking, 1, Object(map[K_BUILD := Array(items)])))
    ensures RunResult(codec, Report([line]), journal, e, genesis)
         == Some(RunReport(StatusOf(Checking), ReasonOf(Checking), 1, None))
    ensures Project(codec.reader, Report([line]), RUN, e.attempt) == Projection([], 1, true)
  {
    hide *;
    hide Rows;
    var raw := Report([line]);
    ReportSplits([line]);
    OneLine(line);
    CheckingAccepted(codec.reader, e, genesis, line, Array(items));
    LinesAreRows(raw);
    OneRowAccepted(codec, raw, journal, e, genesis, line);
    ArrayNotObject(codec.reader, e, line, items);
    RunProjected(codec, raw, journal, e, genesis);
    NoEvents(codec.reader, [line]);
  }

  lemma OneLine(line: bytes)
    requires PlainLine(line)
    ensures Report([line]) == line + [NEWLINE] && |Report([line])| <= MAX_BYTES
    ensures line != [] && |line| <= MAX_ROW_BYTES
  {
    assert [line][1..] == [];
  }

  lemma CheckingAccepted(reader: Reader, e: Expected, genesis: bytes, line: bytes, build: Value)
    requires line != [] && |line| <= MAX_ROW_BYTES && reader.identifies(build)
    requires reader.decode(line) == Some(RowOf(e, RUN, Checking, 1, Object(map[K_BUILD := build])))
    ensures RunStep(reader, e, genesis, RunState(None, None), line, 0) == Some(RunState(Some(Checking), None))
  {
    CheckingKind();
    hide StatusOf, ReasonOf, KindOf;
  }

  lemma CheckingKind()
    ensures KindOf(StatusOf(Checking), ReasonOf(Checking)) == Some(Checking)
  {
  }

  lemma OneRowAccepted(codec: Codec, raw: bytes, journal: bytes, e: Expected, genesis: bytes, line: bytes)
    requires Scope(e) && Hash0x(genesis) && JournalIs(codec, journal, e, genesis) && e.pid != 0 && AttemptShape(e.attempt)
    requires EndsLine(raw) && |raw| <= MAX_BYTES && Split(raw[..|raw| - 1]) == [line]
    requires RunStep(codec.reader, e, genesis, RunState(None, None), line, 0) == Some(RunState(Some(Checking), None))
    ensures RunResult(codec, raw, journal, e, genesis)
         == Some(RunReport(StatusOf(Checking), ReasonOf(Checking), 1, None))
  {
    hide Scope, Hash0x, JournalIs, AttemptShape, EndsLine, Split, RunStep, StatusOf, ReasonOf;
    assert RunAfter(codec.reader, e, genesis, [line], 0) == Some(RunState(None, None));
  }

  lemma ArrayNotObject(reader: Reader, e: Expected, line: bytes, items: seq<Value>)
    requires reader.decode(line) == Some(RowOf(e, RUN, Checking, 1, Object(map[K_BUILD := Array(items)])))
    ensures !ObjectBuild(reader, line)
  {
  }

  lemma NoEvents(reader: Reader, lines: seq<bytes>)
    requires |lines| == 1
    ensures EventsOf(reader, RUN, lines, 1, 1) == []
  {
  }

  /** Details of the last row of an initialization. */
  function IdentityDetails(e: Expected, genesis: bytes): Value {
    Object(map[K_GENESIS := Text(genesis), K_CHAIN := Text(e.chain), K_NODE := Text(e.node)])
  }

  /** The rows of a successful initialization, the second with its details written
      as an array: `"details":["h2"]` instead of `"details":{"backend":"h2"}`. */
  predicate ArrayRows(reader: Reader, lines: seq<bytes>, e: Expected, command: bytes, genesis: bytes,
                      build: map<bytes, Value>) {
    && |lines| == 3 && (forall line <- lines :: PlainLine(line)) && reader.identifies(Object(build))
    && reader.decode(lines[0]) == Some(RowOf(e, command, Checking, 1, Object(map[K_BUILD := Object(build)])))
    && reader.decode(lines[1]) == Some(RowOf(e, command, Starting, 2, Array([Text(e.backend)])))
    && reader.decode(lines[2]) == Some(RowOf(e, command, Initialized, 3, IdentityDetails(e, genesis)))
  }

  /** An init or resume report that the acceptor takes and the projection shows only
      in part, for any reader and any execution. */
  lemma ArrayDetailsHidden(codec: Codec, stdout: bytes, lines: seq<bytes>, journal: bytes, e: Expected,
                           command: bytes, genesis: bytes, build: map<bytes, Value>)
    requires ArrayRows(codec.reader, lines, e, command, genesis, build) && |Report(lines)| <= MAX_INIT_REPORT
    requires InitGuard(e, command) && Hash0x(genesis) && JournalIs(codec, journal, e, genesis)
    requires 0 < |stdout| <= MAX_STDOUT
    requires codec.output(stdout) == Some(Output(Ascii("INITIALIZED"), genesis, e.attempt))
    ensures InitResult(codec, stdout, Report(lines), journal, e, command) == Some(genesis)
    ensures Project(codec.reader, Report(lines), command, e.attempt)
         == Projection([Event(1, command, StatusOf(Checking), ReasonOf(Checking)),
                        Event(3, command, StatusOf(Initialized), ReasonOf(Initialized))], 1, true)
  {
    hide *;
    hide Rows;
    var raw := Report(lines);
    RowsPlain(codec.reader, lines, e, command, genesis, build);
    ReportSplits(lines);
    LinesAreRows(raw);
    CheckingTyped(codec.reader, command, e, lines[0], build);
    StartingTyped(codec.reader, command, e, lines[1]);
    InitializedTyped(codec.reader, command, e, genesis, lines[2]);
    InitAccepted(codec, stdout, raw, journal, e, command, genesis, lines);
    InitProjected(codec, stdout, raw, journal, e, command);
    PlainNext(codec.reader, command, lines, 1);
    PlainNext(codec.reader, command, lines, 2);
    PlainNext(codec.reader, command, lines, 3);
    PlainNone(codec.reader, command, lines);
  }

  lemma PlainNone(reader: Reader, command: bytes, lines: seq<bytes>)
    ensures PlainRows(reader, command, lines, 0) == Projection([], 0, false)
  {
  }

  lemma RowsPlain(reader: Reader, lines: seq<bytes>, e: Expected, command: bytes, genesis: bytes, build: map<bytes, Value>)
    requires ArrayRows(reader, lines, e, command, genesis, build)
    ensures |lines| == 3 && (forall line <- lines :: PlainLine(line)) && reader.identifies(Object(build))
    ensures reader.decode(lines[0]) == Some(RowOf(e, command, Checking, 1, Object(map[K_BUILD := Object(build)])))
    ensures reader.decode(lines[1]) == Some(RowOf(e, command, Starting, 2, Array([Text(e.backend)])))
    ensures reader.decode(lines[2]) == Some(RowOf(e, command, Initialized, 3, IdentityDetails(e, genesis)))
    ensures PlainLine(lines[0]) && PlainLine(lines[1]) && PlainLine(lines[2])
  {
    hide PlainLine, RowOf;
    assert lines[0] in lines && lines[1] in lines && lines[2] in lines;
  }

  lemma CheckingTyped(reader: Reader, command: bytes, e: Expected, line: bytes, build: map<bytes, Value>)
    requires PlainLine(line) && reader.identifies(Object(build))
    requires reader.decode(line) == Some(RowOf(e, command, Checking, 1, Object(map[K_BUILD := Object(build)])))
    ensures CheckingRow(reader, command, e, line) && PlainRow(reader, line, 0)
    ensures ShownAs(reader, command, line, 1) == Event(1, command, StatusOf(Checking), ReasonOf(Checking))
  {
    hide StatusOf, ReasonOf, Ascii;
    assert (set k | k in CHECKING_FIELDS) == {K_BUILD};
  }

  lemma StartingTyped(reader: Reader, command: bytes, e: Expected, line: bytes)
    requires PlainLine(line)
    requires reader.decode(line) == Some(RowOf(e, command, Starting, 2, Array([Text(e.backend)])))
    ensures StartingRow(reader, command, e, line) && !PlainRow(reader, line, 1)
  {
    hide StatusOf, ReasonOf, Ascii;
  }

  lemma InitializedTyped(reader: Reader, command: bytes, e: Expected, genesis: bytes, line: bytes)
    requires PlainLine(line)
    requires reader.decode(line) == Some(RowOf(e, command, Initialized, 3, IdentityDetails(e, genesis)))
    ensures InitializedRow(reader, command, e, genesis, line) && PlainRow(reader, line, 2)
    ensures ShownAs(reader, command, line, 3) == Event(3, command, StatusOf(Initialized), ReasonOf(Initialized))
  {
    hide StatusOf, ReasonOf;
    assert |K_GENESIS| == 11 && |K_CHAIN| == 16 && |K_NODE| == 12;
    hide Ascii;
    assert (set k | k in INITIALIZED_FIELDS) == {K_GENESIS, K_CHAIN, K_NODE};
  }

  lemma InitAccepted(codec: Codec, stdout: bytes, raw: bytes, journal: bytes, e: Expected, command: bytes,
                     genesis: bytes, lines: seq<bytes>)
    requires InitGuard(e, command) && 0 < |stdout| <= MAX_STDOUT && EndsLine(raw) && |raw| <= MAX_INIT_REPORT
    requires codec.output(stdout) == Some(Output(Ascii("INITIALIZED"), genesis, e.attempt))
    requires |lines| == 3 && Split(raw[..|raw| - 1]) == lines
    requires CheckingRow(codec.reader, command, e, lines[0]) && StartingRow(codec.reader, command, e, lines[1])
    requires InitializedRow(codec.reader, command, e, genesis, lines[2])
    requires Hash0x(genesis) && JournalIs(codec, journal, e, genesis)
    ensures InitResult(codec, stdout, raw, journal, e, command) == Some(genesis)
  {
    hide InitGuard, EndsLine, Split, CheckingRow, StartingRow, InitializedRow, Hash0x, JournalIs, Ascii;
  }
}
