/** Reading the launchctl description of a job (src/engine/launchd.rs,
    `parse_observation`, `exit_code`, `positive_integer`): an indentation parser
    that folds over the lines of the text. */
module Launchd {
  import opened Prelude

  const OUTPUT_LIMIT: nat := 131_072
  const MAX_DEPTH: nat := 16
  const MAX_ARGUMENTS: nat := 16
  const TAB: byte := 0x09
  const CLOSE: byte := 0x7D
  const EQUALS: bytes := [0x20, 0x3D, 0x20]
  const OPEN: bytes := [0x20, 0x3D, 0x20, 0x7B]
  const OPEN_ARROW: bytes := [0x20, 0x3D, 0x3E, 0x20, 0x7B]
  const ARGUMENTS: bytes := Ascii("arguments = {")
  const BRACE: bytes := [0x7B]

  const PID: bytes := Ascii("pid")
  const STATE: bytes := Ascii("state")
  const EXIT_CODE: bytes := Ascii("last exit code")
  const SIGNAL: bytes := Ascii("last terminating signal")
  const OPTIONAL: set<bytes> := {PID, EXIT_CODE, SIGNAL}
  const STATES: seq<bytes> := [
    Ascii("running"), Ascii("not running"), Ascii("exited"), Ascii("waiting"), Ascii("spawn scheduled"),
    Ascii("spawn failed")]
  const NEVER_EXITED: bytes := Ascii("(never exited)")

  /** The identity that a description must show, paths as text. */
  datatype Job = Job(
    uid: bytes, name: bytes, target: bytes, arguments: seq<bytes>,
    plist: bytes, program: bytes, directory: bytes, stdout: bytes, stderr: bytes)

  datatype JobState = JobState(pid: Option<nat>, state: bytes, exit: Option<int>, signal: Option<nat>)

  datatype Observation = GuiUnavailable | NotLoaded | Loaded(state: JobState)

  // ------------------------------------------------------------------- lines

  /** `str::lines`, for text without carriage returns. */
  function Lines(s: bytes): seq<bytes>
    decreases |s|
  {
    if s == [] then []
    else
      var k := Find(s, NEWLINE);
      [s[..k]] + if k < |s| then Lines(s[k + 1..]) else []
  }

  function Unlines(lines: seq<bytes>): bytes {
    if lines == [] then [] else lines[0] + [NEWLINE] + Unlines(lines[1..])
  }

  lemma {:induction false} LinesOfUnlines(lines: seq<bytes>)
    requires forall line <- lines :: NEWLINE !in line
    ensures Lines(Unlines(lines)) == lines
    decreases |lines|
  {
    if lines != [] {
      assert lines[0] in lines;
      LinesMore(lines[0], Unlines(lines[1..]));
      LinesOfUnlines(lines[1..]);
    }
  }

  lemma LinesMore(line: bytes, rest: bytes)
    requires NEWLINE !in line
    ensures Lines(line + [NEWLINE] + rest) == [line] + Lines(rest)
  {
    hide Find;
    var s := line + [NEWLINE] + rest;
    FindIs(s, NEWLINE, |line|);
    assert s[..|line|] == line && s[|line| + 1..] == rest;
  }

  /** A line that is all whitespace. */
  predicate BlankLine(line: bytes)
    decreases |line|
  {
    line == []
    || (Space(line[..1]) && BlankLine(line[1..]))
    || (|line| >= 2 && Space(line[..2]) && BlankLine(line[2..]))
    || (|line| >= 3 && Space(line[..3]) && BlankLine(line[3..]))
  }

  function Tabs(n: nat): bytes {
    Repeat(TAB, n)
  }

  function StripPrefix(line: bytes, p: bytes): Option<bytes> {
    if HasPrefix(line, p) then Some(line[|p|..]) else None
  }

  /** `split_once(" = ")`. */
  function SplitOnce(s: bytes): Option<(bytes, bytes)>
    decreases |s|
  {
    if |s| < 3 then None
    else if s[..3] == EQUALS then Some(([], s[3..]))
    else match SplitOnce(s[1..])
      case None => None
      case Some((a, b)) => Some(([s[0]] + a, b))
  }

  // ---------------------------------------------------------------- the fold

  datatype Parse = Parse(
    depth: nat, fields: map<bytes, bytes>, arguments: Option<seq<bytes>>, inArguments: bool,
    args: seq<bytes>, ended: bool)

  const START: Parse := Parse(1, map[], None, false, [], false)

  function ArgumentLine(p: Parse, line: bytes): Option<Parse> {
    if line == [TAB, CLOSE] then Some(p.(arguments := Some(p.args), args := [], inArguments := false))
    else match StripPrefix(line, Tabs(2))
      case None => None
      case Some(value) =>
        if value == [] || value[0] == TAB || |p.args| >= MAX_ARGUMENTS then None
        else Some(p.(args := p.args + [value]))
  }

  function FieldLine(p: Parse, line: bytes): Option<Parse> {
    match StripPrefix(line, Tabs(1))
    case None => None
    case Some(value) =>
      if value != [] && value[0] == TAB then None
      else if value == ARGUMENTS then
        if p.arguments.Some? then None else Some(p.(inArguments := true))
      else match SplitOnce(value)
        case None => None
        case Some((key, val)) =>
          if key in p.fields then None
          else Some(p.(fields := p.fields[key := val], depth := if val == BRACE then 2 else 1))
  }

  function NestedLine(p: Parse, line: bytes): Option<Parse>
    requires p.depth > 0
  {
    if line == Tabs(p.depth - 1) + [CLOSE] then Some(p.(depth := p.depth - 1))
    else match StripPrefix(line, Tabs(p.depth))
      case None => None
      case Some(value) =>
        if value != [] && value[0] == TAB then None
        else if HasSuffix(value, OPEN) || HasSuffix(value, OPEN_ARROW) then
          if p.depth + 1 > MAX_DEPTH then None else Some(p.(depth := p.depth + 1))
        else Some(p)
  }

  /** What one line does to the parser. */
  function Step(p: Parse, line: bytes): Option<Parse> {
    if BlankLine(line) then Some(p)
    else if p.ended then None
    else if p.inArguments then ArgumentLine(p, line)
    else if line == [CLOSE] then if p.depth == 1 then Some(p.(ended := true, depth := 0)) else None
    else if p.depth <= 1 then FieldLine(p, line)
    else NestedLine(p, line)
  }

  function Fold(p: Parse, lines: seq<bytes>): Option<Parse>
    decreases |lines|
  {
    if lines == [] then Some(p)
    else match Step(p, lines[0])
      case None => None
      case Some(q) => Fold(q, lines[1..])
  }

  lemma {:induction false} FoldAppend(p: Parse, a: seq<bytes>, b: seq<bytes>)
    ensures Fold(p, a + b) == match Fold(p, a) case None => None case Some(q) => Fold(q, b)
    decreases |a|
  {
    hide Step;
    if a == [] {
      assert a + b == b;
    } else {
      assert (a + b)[1..] == a[1..] + b;
      if Step(p, a[0]).Some? {
        FoldAppend(Step(p, a[0]).value, a[1..], b);
      }
    }
  }

  // ----------------------------------------------------------------- numbers

  function PositiveInteger(t: bytes): Option<nat> {
    if !AllDigits(t) then None
    else if DecimalValue(t) == 0 || DecimalValue(t) >= 0x1_0000_0000 then None
    else Some(DecimalValue(t))
  }

  /** `i32::to_string`. */
  function IntegerText(n: int): bytes {
    if n < 0 then [0x2D] + DecimalText(-n) else DecimalText(n)
  }

  /** `str::parse::<i32>`. */
  function ParseInteger(t: bytes): Option<int> {
    var minus := t != [] && t[0] == 0x2D;
    var digits := if t != [] && (t[0] == 0x2D || t[0] == 0x2B) then t[1..] else t;
    if !AllDigits(digits) then None
    else
      var n: int := if minus then 0 - DecimalValue(digits) else DecimalValue(digits);
      if -0x8000_0000 <= n < 0x8000_0000 then Some(n) else None
  }

  /** The symbolic names of sysexits.h. */
  function Symbol(code: int): Option<bytes> {
    match code
    case 0 => Some(Ascii("EX_OK"))
    case 64 => Some(Ascii("EX_USAGE"))
    case 65 => Some(Ascii("EX_DATAERR"))
    case 66 => Some(Ascii("EX_NOINPUT"))
    case 67 => Some(Ascii("EX_NOUSER"))
    case 68 => Some(Ascii("EX_NOHOST"))
    case 69 => Some(Ascii("EX_UNAVAILABLE"))
    case 70 => Some(Ascii("EX_SOFTWARE"))
    case 71 => Some(Ascii("EX_OSERR"))
    case 72 => Some(Ascii("EX_OSFILE"))
    case 73 => Some(Ascii("EX_CANTCREAT"))
    case 74 => Some(Ascii("EX_IOERR"))
    case 75 => Some(Ascii("EX_TEMPFAIL"))
    case 76 => Some(Ascii("EX_PROTOCOL"))
    case 77 => Some(Ascii("EX_NOPERM"))
    case 78 => Some(Ascii("EX_CONFIG"))
    case _ => None
  }

  /** Where ": " first occurs. */
  function FindColon(t: bytes): (k: nat)
    ensures k <= |t|
  {
    if |t| < 2 then |t|
    else if t[0] == 0x3A && t[1] == SPACE then 0
    else 1 + FindColon(t[1..])
  }

  function ExitCode(t: bytes): Option<int> {
    var k := FindColon(t);
    var number := t[..k];
    match ParseInteger(number)
    case None => None
    case Some(code) =>
      if IntegerText(code) != number then None
      else if k + 2 <= |t| && Symbol(code) != Some(t[k + 2..]) then None
      else Some(code)
  }

  // -------------------------------------------------------------- conclusion

  function Lookup(fields: map<bytes, bytes>, key: bytes): Option<bytes> {
    if key in fields then Some(fields[key]) else None
  }

  predicate Identified(job: Job, fields: map<bytes, bytes>) {
    && Lookup(fields, Ascii("path")) == Some(job.plist)
    && Lookup(fields, Ascii("type")) == Some(Ascii("LaunchAgent"))
    && Lookup(fields, Ascii("program")) == Some(job.program)
    && Lookup(fields, Ascii("working directory")) == Some(job.directory)
    && Lookup(fields, Ascii("stdout path")) == Some(job.stdout)
    && Lookup(fields, Ascii("stderr path")) == Some(job.stderr)
  }

  /** An absent field, or a field that must read well. */
  function Optionally<T>(text: Option<bytes>, read: bytes -> Option<T>): Option<Option<T>> {
    match text
    case None => Some(None)
    case Some(t) => match read(t) case None => None case Some(v) => Some(Some(v))
  }

  function ReadExit(text: Option<bytes>): Option<Option<int>> {
    if text == Some(NEVER_EXITED) then Some(None) else Optionally(text, ExitCode)
  }

  predicate StateOk(state: bytes, pid: Option<nat>) {
    && state in STATES
    && (state == Ascii("running") ==> pid.Some?)
    && (state == Ascii("not running") || state == Ascii("exited") ==> pid.None?)
  }

  /** The job state that the fields give. */
  function StateOf(fields: map<bytes, bytes>): Option<JobState> {
    match Lookup(fields, STATE)
    case None => None
    case Some(state) =>
      match Optionally(Lookup(fields, PID), PositiveInteger)
      case None => None
      case Some(pid) =>
        if !StateOk(state, pid) then None
        else match ReadExit(Lookup(fields, EXIT_CODE))
          case None => None
          case Some(exit) =>
            match Optionally(Lookup(fields, SIGNAL), PositiveInteger)
            case None => None
            case Some(signal) => Some(JobState(pid, state, exit, signal))
  }

  predicate Complete(job: Job, p: Parse) {
    p.ended && p.depth == 0 && !p.inArguments && p.arguments == Some(job.arguments)
  }

  function Conclude(job: Job, p: Parse): Option<JobState> {
    if Complete(job, p) && Identified(job, p.fields) then StateOf(p.fields) else None
  }

  function ParseLines(job: Job, lines: seq<bytes>): Option<JobState> {
    if lines == [] || lines[0] != job.target + OPEN then None
    else match Fold(START, lines[1..])
      case None => None
      case Some(p) => Conclude(job, p)
  }

  // ------------------------------------------------- blocks and what they do

  /** Well-indented lines of a nested block: plain lines and further blocks. */
  datatype Nest = Plain(text: bytes) | Block(head: bytes, body: seq<Nest>)

  function NestLines(ns: seq<Nest>, depth: nat): seq<bytes>
    decreases ns
  {
    if ns == [] then [] else NestText(ns[0], depth) + NestLines(ns[1..], depth)
  }

  function NestText(n: Nest, depth: nat): seq<bytes>
    decreases n
  {
    match n
    case Plain(text) => [Tabs(depth) + text]
    case Block(head, body) => [Tabs(depth) + head] + NestLines(body, depth + 1) + [Tabs(depth) + [CLOSE]]
  }

  predicate Opens(text: bytes) {
    HasSuffix(text, [0x20, 0x3D, 0x20, 0x7B]) || HasSuffix(text, [0x20, 0x3D, 0x3E, 0x20, 0x7B])
  }

  predicate Unindented(text: bytes) {
    text == [] || text[0] != TAB
  }

  /** Nothing looks like a block that is not one, and none nests too deep. */
  predicate NestsOk(ns: seq<Nest>, depth: nat)
    decreases ns
  {
    ns == [] || (NestOk(ns[0], depth) && NestsOk(ns[1..], depth))
  }

  predicate NestOk(n: Nest, depth: nat)
    decreases n
  {
    match n
    case Plain(text) => Unindented(text) && !Opens(text)
    case Block(head, body) => Unindented(head) && Opens(head) && depth < 16 && NestsOk(body, depth + 1)
  }

  /** Whitespace contains neither an equals sign nor a brace. */
  lemma {:induction false} BlankPlain(line: bytes)
    requires BlankLine(line)
    ensures 0x3D !in line && 0x7B !in line && 0x7D !in line
    decreases |line|
  {
    if line != [] {
      var n := if Space(line[..1]) && BlankLine(line[1..]) then 1
               else if |line| >= 2 && Space(line[..2]) && BlankLine(line[2..]) then 2 else 3;
      BlankPlain(line[n..]);
      assert line == line[..n] + line[n..];
      SpacePlain(line[..n]);
    }
  }

  lemma SpacePlain(c: bytes)
    requires Space(c)
    ensures 0x3D !in c && 0x7B !in c && 0x7D !in c
  {
  }

  lemma Closes(p: Parse, d: nat)
    requires 1 <= d && p.depth == d + 1 && !p.ended && !p.inArguments
    ensures Step(p, Tabs(d) + [CLOSE]) == Some(p.(depth := d))
  {
    var line := Tabs(d) + [CLOSE];
    assert line[d] == 0x7D && line[0] == TAB;
    if BlankLine(line) {
      BlankPlain(line);
    }
  }

  lemma Indented(text: bytes, d: nat)
    requires d >= 1
    ensures var line := Tabs(d) + text;
            && line[0] == TAB && line != [CLOSE] && StripPrefix(line, Tabs(d)) == Some(text)
            && line != Tabs(d - 1) + [CLOSE]
  {
    var line := Tabs(d) + text;
    assert line[..d] == Tabs(d) && line[d..] == text;
    assert line[d - 1] == TAB && (Tabs(d - 1) + [CLOSE])[d - 1] == CLOSE;
  }

  lemma NestedStep(p: Parse, text: bytes)
    requires 2 <= p.depth <= MAX_DEPTH && !p.ended && !p.inArguments && Unindented(text)
    requires Opens(text) ==> p.depth < MAX_DEPTH
    ensures Step(p, Tabs(p.depth) + text) == Some(if Opens(text) then p.(depth := p.depth + 1) else p)
  {
    var line := Tabs(p.depth) + text;
    hide Tabs, StripPrefix, BlankLine, HasSuffix, FieldLine, ArgumentLine;
    Indented(text, p.depth);
    if Opens(text) {
      OpensBrace(text);
      NotBlank(Tabs(p.depth), text);
    }
  }

  lemma NotBlank(lead: bytes, text: bytes)
    requires 0x7B in text
    ensures !BlankLine(lead + text)
  {
    if BlankLine(lead + text) {
      BlankPlain(lead + text);
    }
  }

  lemma OpensBrace(text: bytes)
    requires Opens(text)
    ensures 0x7B in text
  {
    assert text[|text| - 1] == 0x7B;
  }

  /** A nested block passes without a trace. */
  lemma {:induction false} NestFold(p: Parse, ns: seq<Nest>)
    requires 2 <= p.depth <= MAX_DEPTH && !p.ended && !p.inArguments && NestsOk(ns, p.depth)
    ensures Fold(p, NestLines(ns, p.depth)) == Some(p)
    decreases ns
  {
    hide Step;
    if ns != [] {
      OneNest(p, ns[0]);
      FoldAppend(p, NestText(ns[0], p.depth), NestLines(ns[1..], p.depth));
      NestFold(p, ns[1..]);
    }
  }

  lemma {:induction false} OneNest(p: Parse, n: Nest)
    requires 2 <= p.depth <= MAX_DEPTH && !p.ended && !p.inArguments && NestOk(n, p.depth)
    ensures Fold(p, NestText(n, p.depth)) == Some(p)
    decreases n
  {
    hide Step, Tabs, Opens;
    var d := p.depth;
    match n
    case Plain(text) =>
      NestedStep(p, text);
      FoldOne(p, Tabs(d) + text);
    case Block(head, body) =>
      NestedStep(p, head);
      var inner := p.(depth := d + 1);
      NestFold(inner, body);
      Closes(inner, d);
      FoldBlock(p, inner, inner, p, Tabs(d) + head, NestLines(body, d + 1), Tabs(d) + [CLOSE]);
  }

  lemma FoldOne(p: Parse, line: bytes)
    ensures Fold(p, [line]) == Step(p, line)
  {
    hide Step;
  }

  /** Folding over an opening line, a body and a closing line. */
  lemma FoldBlock(p: Parse, q: Parse, r: Parse, s: Parse, open: bytes, body: seq<bytes>, close: bytes)
    requires Step(p, open) == Some(q) && Fold(q, body) == Some(r) && Step(r, close) == Some(s)
    ensures Fold(p, [open] + body + [close]) == Some(s)
  {
    hide Step;
    FoldOne(p, open);
    FoldOne(r, close);
    FoldAppend(p, [open], body);
    FoldAppend(p, [open] + body, [close]);
  }

  // --------------------------------------------------- inserting a block

  predicate TopLevel(p: Parse) {
    p.depth == 1 && !p.ended && !p.inArguments
  }

  function With(p: Parse, key: bytes): Parse {
    p.(fields := p.fields[key := BRACE])
  }

  lemma {:induction false} SplitJoins(s: bytes)
    requires SplitOnce(s).Some?
    ensures var (a, b) := SplitOnce(s).value; s == a + EQUALS + b
    decreases |s|
  {
    if s[..3] != EQUALS {
      SplitJoins(s[1..]);
    }
  }

  lemma FieldStep(p: Parse, text: bytes, key: bytes, val: bytes)
    requires TopLevel(p) && Unindented(text) && text != ARGUMENTS && SplitOnce(text) == Some((key, val))
    ensures Step(p, Tabs(1) + text) ==
              if key in p.fields then None
              else Some(p.(fields := p.fields[key := val], depth := if val == BRACE then 2 else 1))
  {
    var line := Tabs(1) + text;
    SplitJoins(text);
    assert text[|key| + 1] == 0x3D;
    assert 0x3D in line;
    Indented(text, 1);
    if BlankLine(line) {
      BlankPlain(line);
    }
  }

  function BlockLines(head: bytes, body: seq<Nest>): seq<bytes> {
    [Tabs(1) + head] + NestLines(body, 2) + [Tabs(1) + [CLOSE]]
  }

  /** A well-indented block that opens a field of the job at the top level. */
  predicate FieldBlock(head: bytes, key: bytes, body: seq<Nest>) {
    Unindented(head) && head != ARGUMENTS && SplitOnce(head) == Some((key, BRACE)) && NestsOk(body, 2)
  }

  lemma BlockFold(p: Parse, head: bytes, key: bytes, body: seq<Nest>)
    requires TopLevel(p) && FieldBlock(head, key, body) && key !in p.fields
    ensures Fold(p, BlockLines(head, body)) == Some(With(p, key))
  {
    hide Step, Tabs, NestLines, NestsOk, SplitOnce;
    FieldStep(p, head, key, BRACE);
    var inner := With(p, key).(depth := 2);
    NestFold(inner, body);
    Closes(inner, 1);
    FoldBlock(p, inner, inner, With(p, key), Tabs(1) + head, NestLines(body, 2), Tabs(1) + [CLOSE]);
  }

  lemma StepWith(p: Parse, line: bytes, key: bytes)
    requires key !in p.fields
    ensures Step(With(p, key), line) ==
              match Step(p, line)
              case None => None
              case Some(q) => if key in q.fields then None else Some(With(q, key))
    ensures Step(p, line).Some? ==> p.fields.Keys <= Step(p, line).value.fields.Keys
  {
    hide BlankLine, Tabs, SplitOnce, StripPrefix, HasSuffix;
    var value := StripPrefix(line, Tabs(1));
    if value.Some? && SplitOnce(value.value).Some? {
      var (k, v) := SplitOnce(value.value).value;
      if k != key {
        assert p.fields[key := BRACE][k := v] == p.fields[k := v][key := BRACE];
      }
    }
  }

  lemma {:induction false} FieldsGrow(p: Parse, lines: seq<bytes>)
    requires Fold(p, lines).Some?
    ensures p.fields.Keys <= Fold(p, lines).value.fields.Keys
    decreases |lines|
  {
    if lines != [] {
      StepGrows(p, lines[0]);
      hide Step;
      FieldsGrow(Step(p, lines[0]).value, lines[1..]);
    }
  }

  lemma StepGrows(p: Parse, line: bytes)
    requires Step(p, line).Some?
    ensures p.fields.Keys <= Step(p, line).value.fields.Keys
  {
    hide BlankLine, Tabs, SplitOnce, StripPrefix, HasSuffix;
  }

  /** An extra field changes nothing but the fields, unless its key comes again. */
  lemma {:induction false} FoldWith(p: Parse, lines: seq<bytes>, key: bytes)
    requires key !in p.fields
    ensures Fold(With(p, key), lines) ==
              match Fold(p, lines)
              case None => None
              case Some(q) => if key in q.fields then None else Some(With(q, key))
    decreases |lines|
  {
    if lines != [] {
      StepWith(p, lines[0], key);
      hide Step, With;
      if Step(p, lines[0]).Some? {
        var q := Step(p, lines[0]).value;
        if key !in q.fields {
          FoldWith(q, lines[1..], key);
        } else if Fold(q, lines[1..]).Some? {
          FieldsGrow(q, lines[1..]);
        }
      }
    }
  }

  /** The job's paths are absolute. */
  predicate Absolute(job: Job) {
    forall t <- [job.plist, job.program, job.directory, job.stdout, job.stderr] :: t != [] && t[0] == SLASH
  }

  lemma BraceReads()
    ensures PositiveInteger(BRACE).None? && ExitCode(BRACE).None? && BRACE != NEVER_EXITED && BRACE !in STATES
    ensures BRACE != Ascii("LaunchAgent")
  {
    assert !IsDigit(BRACE[0]);
    assert forall i :: 0 <= i < |STATES| ==> |STATES[i]| > 1;
    assert |NEVER_EXITED| > 1 && |Ascii("LaunchAgent")| > 1;
    assert BRACE[..FindColon(BRACE)] == BRACE;
  }

  lemma LookupWith(fields: map<bytes, bytes>, key: bytes, k: bytes)
    requires key !in fields
    ensures Lookup(fields[key := BRACE], k) == if k == key then Some(BRACE) else Lookup(fields, k)
  {
  }

  lemma IdentifiedWith(job: Job, fields: map<bytes, bytes>, key: bytes)
    requires Absolute(job) && key !in fields
    ensures Identified(job, fields[key := BRACE]) ==> Identified(job, fields)
    ensures Identified(job, fields) ==> Identified(job, fields[key := BRACE])
  {
    BraceReads();
    hide Ascii, Lookup;
    assert job.plist != BRACE && job.program != BRACE && job.directory != BRACE && job.stdout != BRACE
        && job.stderr != BRACE;
    LookupWith(fields, key, Ascii("path"));
    LookupWith(fields, key, Ascii("type"));
    LookupWith(fields, key, Ascii("program"));
    LookupWith(fields, key, Ascii("working directory"));
    LookupWith(fields, key, Ascii("stdout path"));
    LookupWith(fields, key, Ascii("stderr path"));
    LookupAbsent(fields, key);
  }

  lemma LookupAbsent(fields: map<bytes, bytes>, key: bytes)
    requires key !in fields
    ensures Lookup(fields, key) == None
  {
  }

  lemma StateWith(fields: map<bytes, bytes>, key: bytes)
    requires key !in fields
    ensures StateOf(fields[key := BRACE]) == if key in OPTIONAL then None else StateOf(fields)
  {
    BraceReads();
    LookupWith(fields, key, STATE);
    LookupWith(fields, key, PID);
    LookupWith(fields, key, EXIT_CODE);
    LookupWith(fields, key, SIGNAL);
    LookupAbsent(fields, key);
    hide Ascii, Lookup, PositiveInteger, ExitCode;
  }

  lemma ConcludeWith(job: Job, p: Parse, key: bytes)
    requires Absolute(job) && key !in p.fields
    ensures Conclude(job, With(p, key)) == if key in OPTIONAL then None else Conclude(job, p)
  {
    IdentifiedWith(job, p.fields, key);
    StateWith(p.fields, key);
    hide Identified, StateOf, OPTIONAL;
  }

  /** Nested lines never supply identity fields: a well-indented block inserted at
      the top level under a fresh key leaves the outcome as it was, unless the
      key is that of a field which may be absent. Then the text is rejected. */
  lemma InsertBlock(job: Job, first: bytes, a: seq<bytes>, p: Parse, b: seq<bytes>,
                    head: bytes, key: bytes, body: seq<Nest>)
    requires Absolute(job) && Fold(START, a) == Some(p) && TopLevel(p) && FieldBlock(head, key, body)
    requires key !in p.fields && (Fold(p, b).Some? ==> key !in Fold(p, b).value.fields)
    ensures ParseLines(job, [first] + (a + BlockLines(head, body) + b)) ==
              if key in OPTIONAL then None else ParseLines(job, [first] + (a + b))
  {
    hide Fold, Step, Conclude, BlockLines, FieldBlock, NestsOk, SplitOnce, OPTIONAL;
    BlockFold(p, head, key, body);
    FoldAppend(START, a, b);
    FoldAppend(START, a, BlockLines(head, body));
    FoldAppend(START, a + BlockLines(head, body), b);
    FoldWith(p, b, key);
    hide With;
    ParseFirst(job, first, a + BlockLines(head, body) + b);
    ParseFirst(job, first, a + b);
    if Fold(p, b).Some? {
      ConcludeWith(job, Fold(p, b).value, key);
    }
  }

  lemma ParseFirst(job: Job, first: bytes, rest: seq<bytes>)
    ensures ParseLines(job, [first] + rest) ==
              if first != job.target + OPEN || Fold(START, rest).None? then None
              else Conclude(job, Fold(START, rest).value)
  {
    hide Fold, Conclude;
    assert ([first] + rest)[1..] == rest;
  }

  // ------------------------------------------------------------ exit codes

  lemma IntegerReads(code: int)
    requires -0x8000_0000 <= code < 0x8000_0000
    ensures ParseInteger(IntegerText(code)) == Some(code)
  {
    if code < 0 {
      DecimalDigits(-code);
      assert IntegerText(code)[1..] == DecimalText(-code);
    } else {
      DecimalDigits(code);
      assert IsDigit(IntegerText(code)[0]);
    }
  }

  lemma NoColon(code: int)
    ensures 0x3A !in IntegerText(code)
  {
  }

  lemma {:induction false} ColonAt(t: bytes, rest: bytes)
    requires 0x3A !in t
    ensures FindColon(t + [0x3A, SPACE] + rest) == |t| && FindColon(t) == |t|
    decreases |t|
  {
    if t != [] {
      var s := t + [0x3A, SPACE] + rest;
      assert s[1..] == t[1..] + [0x3A, SPACE] + rest;
      ColonAt(t[1..], rest);
    }
  }

  lemma {:induction false} ColonFound(t: bytes)
    ensures FindColon(t) < |t| ==> FindColon(t) + 2 <= |t| && t[FindColon(t)..FindColon(t) + 2] == [0x3A, SPACE]
    decreases |t|
  {
    if |t| >= 2 && !(t[0] == 0x3A && t[1] == SPACE) {
      ColonFound(t[1..]);
    }
  }

  function Annotated(code: int, symbol: bytes): bytes {
    IntegerText(code) + [0x3A, SPACE] + symbol
  }

  lemma ExitCodeShape(t: bytes, code: int)
    requires ExitCode(t) == Some(code)
    ensures -0x8000_0000 <= code < 0x8000_0000
    ensures t == IntegerText(code) || (Symbol(code).Some? && t == Annotated(code, Symbol(code).value))
  {
    var k := FindColon(t);
    ColonFound(t);
    ParsedRange(t[..k]);
    hide Symbol, ParseInteger, IntegerText, FindColon;
    if k + 2 <= |t| {
      assert t == t[..k] + t[k..k + 2] + t[k + 2..];
    } else {
      assert t[..k] == t;
    }
  }

  lemma ParsedRange(t: bytes)
    ensures ParseInteger(t).Some? ==> -0x8000_0000 <= ParseInteger(t).value < 0x8000_0000
  {
  }

  lemma ExitCodeReads(code: int)
    requires -0x8000_0000 <= code < 0x8000_0000
    ensures ExitCode(IntegerText(code)) == Some(code)
    ensures Symbol(code).Some? ==> ExitCode(Annotated(code, Symbol(code).value)) == Some(code)
  {
    hide Symbol, ParseInteger, IntegerText;
    var t := IntegerText(code);
    NoColon(code);
    IntegerReads(code);
    ColonAt(t, []);
    assert t[..|t|] == t;
    if Symbol(code).Some? {
      var symbol := Symbol(code).value;
      ColonAt(t, symbol);
      assert Annotated(code, symbol)[..|t|] == t && Annotated(code, symbol)[|t| + 2..] == symbol;
    }
  }

  /** An exit code reads exactly when it is written in canonical decimal, alone or
      with its own sysexits name. */
  lemma ExitCodeExact(t: bytes, code: int)
    ensures ExitCode(t) == Some(code) <==>
              -0x8000_0000 <= code < 0x8000_0000
              && (t == IntegerText(code) || (Symbol(code).Some? && t == Annotated(code, Symbol(code).value)))
  {
    if ExitCode(t) == Some(code) {
      ExitCodeShape(t, code);
    }
    if -0x8000_0000 <= code < 0x8000_0000 {
      ExitCodeReads(code);
    }
    hide ExitCode, Symbol, IntegerText, Annotated;
  }

  // ------------------------------------------------------------- printing

  /** A job state as launchctl may show it. */
  predicate Shown(st: JobState) {
    && StateOk(st.state, st.pid)
    && (st.pid.Some? ==> 0 < st.pid.value < 0x1_0000_0000)
    && (st.signal.Some? ==> 0 < st.signal.value < 0x1_0000_0000)
    && (st.exit.Some? ==> -0x8000_0000 <= st.exit.value < 0x8000_0000)
  }

  /** A job whose arguments fit their lines and whose paths are absolute. */
  predicate Printable(job: Job) {
    && Absolute(job) && |job.arguments| <= MAX_ARGUMENTS
    && forall a <- job.arguments :: ArgumentOk(a)
  }

  predicate ArgumentOk(a: bytes) {
    a != [] && a[0] != TAB && !BlankLine(Tabs(2) + a)
  }

  datatype Field = Field(key: bytes, val: bytes)

  function FieldText(f: Field): bytes {
    Tabs(1) + (f.key + EQUALS + f.val)
  }

  function FieldLines(fs: seq<Field>): seq<bytes> {
    if fs == [] then [] else [FieldText(fs[0])] + FieldLines(fs[1..])
  }

  function ArgumentLines(arguments: seq<bytes>): seq<bytes> {
    if arguments == [] then [] else [Tabs(2) + arguments[0]] + ArgumentLines(arguments[1..])
  }

  function ExitText(code: int, annotate: bool): bytes {
    if annotate && Symbol(code).Some? then Annotated(code, Symbol(code).value) else IntegerText(code)
  }

  function IdentityFields(job: Job): seq<Field> {
    [Field(Ascii("path"), job.plist), Field(Ascii("type"), Ascii("LaunchAgent")),
     Field(Ascii("program"), job.program), Field(Ascii("working directory"), job.directory),
     Field(Ascii("stdout path"), job.stdout), Field(Ascii("stderr path"), job.stderr)]
  }

  function StateFields(st: JobState, annotate: bool): seq<Field> {
    [Field(STATE, st.state)]
    + (if st.pid.Some? then [Field(PID, DecimalText(st.pid.value))] else [])
    + [Field(EXIT_CODE, if st.exit.Some? then ExitText(st.exit.value, annotate) else NEVER_EXITED)]
    + (if st.signal.Some? then [Field(SIGNAL, DecimalText(st.signal.value))] else [])
  }

  /** The description of a loaded job, line by line. */
  function Print(job: Job, st: JobState, annotate: bool): seq<bytes> {
    [job.target + OPEN]
    + ([Tabs(1) + ARGUMENTS] + ArgumentLines(job.arguments) + [Tabs(1) + [CLOSE]])
    + FieldLines(IdentityFields(job) + StateFields(st, annotate))
    + [[CLOSE]]
  }

  lemma ArgumentStep(p: Parse, a: bytes)
    requires p.inArguments && !p.ended && |p.args| < MAX_ARGUMENTS && ArgumentOk(a)
    ensures Step(p, Tabs(2) + a) == Some(p.(args := p.args + [a]))
  {
    var line := Tabs(2) + a;
    assert line[1] == TAB && line[..2] == Tabs(2) && line[2..] == a;
  }

  lemma {:induction false} ArgumentsFold(p: Parse, arguments: seq<bytes>)
    requires p.inArguments && !p.ended && |p.args| + |arguments| <= MAX_ARGUMENTS
    requires forall a <- arguments :: ArgumentOk(a)
    ensures Fold(p, ArgumentLines(arguments)) == Some(p.(args := p.args + arguments))
    decreases |arguments|
  {
    hide Step, ArgumentOk, Tabs;
    if arguments == [] {
      assert p.args + [] == p.args;
    } else {
      ArgumentStep(p, arguments[0]);
      var q := p.(args := p.args + [arguments[0]]);
      ArgumentsFold(q, arguments[1..]);
      FoldOne(p, Tabs(2) + arguments[0]);
      FoldAppend(p, [Tabs(2) + arguments[0]], ArgumentLines(arguments[1..]));
      assert p.args + [arguments[0]] + arguments[1..] == p.args + arguments;
    }
  }

  lemma ArgumentsOpen()
    ensures Step(START, Tabs(1) + ARGUMENTS) == Some(START.(inArguments := true))
  {
    var line := Tabs(1) + ARGUMENTS;
    assert ARGUMENTS[10] == 0x3D && ARGUMENTS[0] == 0x61;
    assert 0x3D in line;
    hide Ascii;
    Indented(ARGUMENTS, 1);
    if BlankLine(line) {
      BlankPlain(line);
    }
  }

  lemma ArgumentsClose(p: Parse)
    requires p.inArguments && !p.ended
    ensures Step(p, Tabs(1) + [CLOSE]) == Some(p.(arguments := Some(p.args), args := [], inArguments := false))
  {
    var line := Tabs(1) + [CLOSE];
    assert line == [TAB, CLOSE];
    if BlankLine(line) {
      BlankPlain(line);
    }
  }

  /** The state after the arguments. */
  function Armed(job: Job): Parse {
    START.(arguments := Some(job.arguments))
  }

  lemma ArgumentsRead(job: Job)
    requires Printable(job)
    ensures Fold(START, [Tabs(1) + ARGUMENTS] + ArgumentLines(job.arguments) + [Tabs(1) + [CLOSE]]) == Some(Armed(job))
  {
    hide Step, BlankLine, Tabs;
    var q := START.(inArguments := true);
    var r := q.(args := job.arguments);
    ArgumentsOpen();
    ArgumentsFold(q, job.arguments);
    assert [] + job.arguments == job.arguments;
    ArgumentsClose(r);
    FoldBlock(START, q, r, Armed(job), Tabs(1) + ARGUMENTS, ArgumentLines(job.arguments), Tabs(1) + [CLOSE]);
  }

  /** A plain field: its key does not run into the separator. */
  predicate FieldOk(f: Field) {
    f.key != [] && f.key[0] != TAB && 0x3D !in f.key && f.val != BRACE
  }

  lemma {:induction false} SplitAt(key: bytes, val: bytes)
    requires 0x3D !in key
    ensures SplitOnce(key + EQUALS + val) == Some((key, val))
    decreases |key|
  {
    var s := key + EQUALS + val;
    if key == [] {
      assert s[..3] == EQUALS && s[3..] == val;
    } else {
      assert s[1..] == key[1..] + EQUALS + val;
      SplitAt(key[1..], val);
      assert s[1] != 0x3D || |key| == 1;
      assert |key| == 1 ==> s[1] == 0x20;
      assert s[..3][1] == s[1] != EQUALS[1];
      assert [key[0]] + key[1..] == key;
    }
  }

  lemma FieldReads(p: Parse, f: Field)
    requires TopLevel(p) && FieldOk(f) && f.key !in p.fields
    ensures Step(p, FieldText(f)) == Some(p.(fields := p.fields[f.key := f.val]))
  {
    var text := f.key + EQUALS + f.val;
    SplitAt(f.key, f.val);
    NotArguments(f);
    assert text[0] == f.key[0];
    hide Step, SplitOnce, Tabs;
    FieldStep(p, text, f.key, f.val);
  }

  lemma NotArguments(f: Field)
    requires FieldOk(f)
    ensures f.key + EQUALS + f.val != ARGUMENTS
  {
    SplitAt(f.key, f.val);
    SplitAt(Ascii("arguments"), BRACE);
    assert Ascii("arguments") + EQUALS + BRACE == ARGUMENTS;
  }

  function MapOf(fs: seq<Field>): map<bytes, bytes> {
    if fs == [] then map[] else MapOf(fs[..|fs| - 1])[fs[|fs| - 1].key := fs[|fs| - 1].val]
  }

  predicate Distinct(fs: seq<Field>) {
    forall i, j :: 0 <= i < j < |fs| ==> fs[i].key != fs[j].key
  }

  lemma {:induction false} MapHas(fs: seq<Field>, key: bytes)
    requires Distinct(fs)
    ensures Lookup(MapOf(fs), key).Some? <==> exists i :: 0 <= i < |fs| && fs[i].key == key
    ensures forall i :: 0 <= i < |fs| && fs[i].key == key ==> Lookup(MapOf(fs), key) == Some(fs[i].val)
    decreases |fs|
  {
    if fs != [] {
      var init, last := fs[..|fs| - 1], fs[|fs| - 1];
      MapHas(init, key);
      if last.key == key {
        assert fs[|fs| - 1].key == key;
      } else if i :| 0 <= i < |init| && init[i].key == key {
        assert fs[i].key == key;
      }
    }
  }

  lemma {:induction false} FieldsFold(p: Parse, fs: seq<Field>, done: seq<Field>)
    requires TopLevel(p) && p.fields == MapOf(done) && Distinct(done + fs) && forall f <- fs :: FieldOk(f)
    ensures Fold(p, FieldLines(fs)) == Some(p.(fields := MapOf(done + fs)))
    decreases |fs|
  {
    hide Step, FieldText, FieldOk, Fold, MapOf, Distinct, Lookup;
    if fs == [] {
      assert done + fs == done;
      FoldNothing(p);
    } else {
      var f := fs[0];
      var next := done + [f];
      assert next + fs[1..] == done + fs;
      DistinctPart(done, fs);
      NewKey(done, f);
      FieldReads(p, f);
      var q := p.(fields := MapOf(next));
      FieldsFold(q, fs[1..], next);
      FoldOne(p, FieldText(f));
      FoldAppend(p, [FieldText(f)], FieldLines(fs[1..]));
    }
  }

  lemma FoldNothing(p: Parse)
    ensures Fold(p, []) == Some(p)
  {
  }

  lemma NewKey(done: seq<Field>, f: Field)
    requires Distinct(done) && forall i :: 0 <= i < |done| ==> done[i].key != f.key
    ensures f.key !in MapOf(done) && MapOf(done + [f]) == MapOf(done)[f.key := f.val]
  {
    MapHas(done, f.key);
    assert (done + [f])[..|done|] == done;
  }

  lemma DistinctPart(done: seq<Field>, fs: seq<Field>)
    requires fs != [] && Distinct(done + fs)
    ensures Distinct(done) && forall i :: 0 <= i < |done| ==> done[i].key != fs[0].key
  {
    var all := done + fs;
    assert all[|done|] == fs[0];
    assert forall i :: 0 <= i < |done| ==> all[i] == done[i];
  }

  // ------------------------------------------------------- the round trip

  const KEYS: seq<bytes> := [
    Ascii("path"), Ascii("type"), Ascii("program"), Ascii("working directory"), Ascii("stdout path"),
    Ascii("stderr path"), STATE, PID, EXIT_CODE, SIGNAL]

  lemma KeysDistinct(i: nat, j: nat)
    requires i < |KEYS| && j < |KEYS| && KEYS[i] == KEYS[j]
    ensures i == j
  {
    assert |KEYS[0]| == 4 && |KEYS[1]| == 4 && |KEYS[2]| == 7 && |KEYS[3]| == 17 && |KEYS[4]| == 11;
    assert |KEYS[5]| == 11 && |KEYS[6]| == 5 && |KEYS[7]| == 3 && |KEYS[8]| == 14 && |KEYS[9]| == 23;
    assert KEYS[0][0] != KEYS[1][0] && KEYS[4][3] != KEYS[5][3];
  }

  lemma KeysPlain(i: nat)
    requires i < |KEYS|
    ensures KEYS[i] != [] && KEYS[i][0] != TAB && 0x3D !in KEYS[i]
  {
    PlainText("path"); PlainText("type"); PlainText("program"); PlainText("working directory");
    PlainText("stdout path"); PlainText("stderr path"); PlainText("state"); PlainText("pid");
    PlainText("last exit code"); PlainText("last terminating signal");
    hide Ascii;
  }

  lemma PlainText(text: string)
    requires text != "" && forall i :: 0 <= i < |text| ==> ' ' <= text[i] < '=' || '=' < text[i] <= '~'
    ensures Ascii(text) != [] && Ascii(text)[0] != TAB && 0x3D !in Ascii(text)
  {
  }

  /** The fields stand under these keys, in the order of the keys. */
  predicate Ranked(fs: seq<Field>, at: seq<nat>) {
    && |fs| == |at| && (forall i :: 0 <= i < |at| ==> at[i] < |KEYS| && fs[i].key == KEYS[at[i]])
    && forall i, j :: 0 <= i < j < |at| ==> at[i] < at[j]
  }

  lemma RankedDistinct(fs: seq<Field>, at: seq<nat>)
    requires Ranked(fs, at)
    ensures Distinct(fs)
  {
    hide KEYS;
    forall i, j | 0 <= i < j < |fs| ensures fs[i].key != fs[j].key {
      if fs[i].key == fs[j].key {
        KeysDistinct(at[i], at[j]);
      }
    }
  }

  lemma RankedLookup(fs: seq<Field>, at: seq<nat>, k: nat)
    requires Ranked(fs, at) && k < |KEYS|
    ensures forall i :: 0 <= i < |at| && at[i] == k ==> Lookup(MapOf(fs), KEYS[k]) == Some(fs[i].val)
    ensures k !in at ==> Lookup(MapOf(fs), KEYS[k]) == None
  {
    hide KEYS;
    RankedDistinct(fs, at);
    MapHas(fs, KEYS[k]);
    forall i | 0 <= i < |fs| && fs[i].key == KEYS[k] ensures at[i] == k {
      KeysDistinct(at[i], k);
    }
  }

  function Ranks(st: JobState): seq<nat> {
    [0, 1, 2, 3, 4, 5, 6] + (if st.pid.Some? then [7] else []) + [8] + (if st.signal.Some? then [9] else [])
  }

  lemma FieldsRanked(job: Job, st: JobState, annotate: bool)
    ensures Ranked(IdentityFields(job) + StateFields(st, annotate), Ranks(st))
  {
    FieldsAt(job, st, annotate);
    RanksAt(st);
    hide Ascii, IdentityFields, StateFields, Ranks, OPTIONAL;
    var fs, at := IdentityFields(job) + StateFields(st, annotate), Ranks(st);
    assert |KEYS| == 10;
    hide KEYS;
    forall i | 0 <= i < |at| ensures at[i] < |KEYS| && fs[i].key == KEYS[at[i]] {
      var pid := if st.pid.Some? then 1 else 0;
      assert i == 0 || i == 1 || i == 2 || i == 3 || i == 4 || i == 5 || i == 6 || i == 7 || i == 7 + pid || i == 8 + pid;
    }
  }

  lemma ValuesOk(job: Job, st: JobState, annotate: bool)
    requires Printable(job) && Shown(st)
    ensures forall f <- IdentityFields(job) + StateFields(st, annotate) :: FieldOk(f)
  {
    BraceReads();
    var fs := IdentityFields(job) + StateFields(st, annotate);
    FieldsRanked(job, st, annotate);
    ValuesNotBrace(job, st, annotate);
    forall f | f in fs ensures FieldOk(f) {
      var i :| 0 <= i < |fs| && fs[i] == f;
      KeysPlain(Ranks(st)[i]);
    }
  }

  lemma ValuesNotBrace(job: Job, st: JobState, annotate: bool)
    requires Printable(job) && Shown(st)
    ensures forall i :: 0 <= i < |IdentityFields(job) + StateFields(st, annotate)| ==>
              (IdentityFields(job) + StateFields(st, annotate))[i].val != BRACE
  {
    BraceReads();
    if st.exit.Some? {
      ExitCodeReads(st.exit.value);
    }
    assert forall n: nat :: DecimalText(n)[0] != 0x7B by {
      forall n: nat ensures DecimalText(n)[0] != 0x7B {
        assert IsDigit(DecimalText(n)[0]);
      }
    }
    hide Ascii, ExitCode, Symbol, STATES;
  }

  lemma PositiveReads(n: nat)
    requires 0 < n < 0x1_0000_0000
    ensures PositiveInteger(DecimalText(n)) == Some(n)
  {
    DecimalDigits(n);
  }

  lemma ExitReads(exit: Option<int>, annotate: bool)
    requires exit.Some? ==> -0x8000_0000 <= exit.value < 0x8000_0000
    ensures ReadExit(Some(if exit.Some? then ExitText(exit.value, annotate) else NEVER_EXITED)) == Some(exit)
  {
    if exit.Some? {
      ExitCodeReads(exit.value);
      NeverExited();
    }
    hide ExitCode, Symbol, Ascii;
  }

  lemma NeverExited()
    ensures ExitCode(NEVER_EXITED).None?
  {
    assert NEVER_EXITED[0] == 0x28;
    var k := FindColon(NEVER_EXITED);
    assert k > 0;
    assert NEVER_EXITED[..k][0] == 0x28;
  }

  lemma StateReads(st: JobState, fields: map<bytes, bytes>, annotate: bool)
    requires Shown(st)
    requires Lookup(fields, STATE) == Some(st.state)
    requires Lookup(fields, PID) == if st.pid.Some? then Some(DecimalText(st.pid.value)) else None
    requires Lookup(fields, EXIT_CODE) ==
               Some(if st.exit.Some? then ExitText(st.exit.value, annotate) else NEVER_EXITED)
    requires Lookup(fields, SIGNAL) == if st.signal.Some? then Some(DecimalText(st.signal.value)) else None
    ensures StateOf(fields) == Some(st)
  {
    if st.pid.Some? {
      PositiveReads(st.pid.value);
    }
    if st.signal.Some? {
      PositiveReads(st.signal.value);
    }
    ExitReads(st.exit, annotate);
    hide PositiveInteger, ReadExit, Ascii, StateOk, Lookup;
  }

  lemma FieldsRead(job: Job, st: JobState, annotate: bool)
    requires Shown(st)
    ensures var fields := MapOf(IdentityFields(job) + StateFields(st, annotate));
            Identified(job, fields) && StateOf(fields) == Some(st)
  {
    var fs, at := IdentityFields(job) + StateFields(st, annotate), Ranks(st);
    FieldsRanked(job, st, annotate);
    FieldsAt(job, st, annotate);
    RanksAt(st);
    hide Ascii, Lookup, MapOf, Ranked, StateOf, ExitText, Shown, Ranks, IdentityFields, StateFields, OPTIONAL;
    RankedLookup(fs, at, 0); RankedLookup(fs, at, 1); RankedLookup(fs, at, 2); RankedLookup(fs, at, 3);
    RankedLookup(fs, at, 4); RankedLookup(fs, at, 5); RankedLookup(fs, at, 6); RankedLookup(fs, at, 7);
    RankedLookup(fs, at, 8); RankedLookup(fs, at, 9);
    StateReads(st, MapOf(fs), annotate);
  }

  lemma RanksAt(st: JobState)
    ensures var (at, pid) := (Ranks(st), if st.pid.Some? then 1 else 0);
            && |at| == 8 + pid + (if st.signal.Some? then 1 else 0)
            && at[0] == 0 && at[1] == 1 && at[2] == 2 && at[3] == 3 && at[4] == 4 && at[5] == 5 && at[6] == 6
            && at[7 + pid] == 8 && (st.pid.Some? ==> at[7] == 7) && (st.signal.Some? ==> at[8 + pid] == 9)
            && (st.pid.None? ==> 7 !in at) && (st.signal.None? ==> 9 !in at)
  {
  }

  lemma FieldsAt(job: Job, st: JobState, annotate: bool)
    ensures var (fs, pid) := (IdentityFields(job) + StateFields(st, annotate), if st.pid.Some? then 1 else 0);
            && |fs| == 8 + pid + (if st.signal.Some? then 1 else 0)
            && fs[0] == Field(KEYS[0], job.plist) && fs[1] == Field(KEYS[1], Ascii("LaunchAgent"))
            && fs[2] == Field(KEYS[2], job.program) && fs[3] == Field(KEYS[3], job.directory)
            && fs[4] == Field(KEYS[4], job.stdout) && fs[5] == Field(KEYS[5], job.stderr)
            && fs[6] == Field(KEYS[6], st.state)
            && fs[7 + pid]
               == Field(KEYS[8], if st.exit.Some? then ExitText(st.exit.value, annotate) else NEVER_EXITED)
            && (st.pid.Some? ==> fs[7] == Field(KEYS[7], DecimalText(st.pid.value)))
            && (st.signal.Some? ==> fs[8 + pid] == Field(KEYS[9], DecimalText(st.signal.value)))
  {
    hide Ascii, ExitText;
  }

  lemma Ends(p: Parse)
    requires TopLevel(p)
    ensures Step(p, [CLOSE]) == Some(p.(ended := true, depth := 0))
  {
    if BlankLine([CLOSE]) {
      BlankPlain([CLOSE]);
    }
  }

  /** The lines between the first and the closing brace. */
  function Inside(job: Job, fs: seq<Field>): seq<bytes> {
    [Tabs(1) + ARGUMENTS] + ArgumentLines(job.arguments) + [Tabs(1) + [CLOSE]] + FieldLines(fs)
  }

  lemma InsideReads(job: Job, fs: seq<Field>, at: seq<nat>)
    requires Printable(job) && Ranked(fs, at) && forall f <- fs :: FieldOk(f)
    ensures Fold(START, Inside(job, fs)) == Some(Armed(job).(fields := MapOf(fs)))
  {
    hide Step, Fold, Printable, Ranked, FieldOk, Distinct, FieldLines, ArgumentLines, Tabs, ARGUMENTS;
    var arguments := [Tabs(1) + ARGUMENTS] + ArgumentLines(job.arguments) + [Tabs(1) + [CLOSE]];
    ArgumentsRead(job);
    RankedDistinct(fs, at);
    assert [] + fs == fs;
    FieldsFold(Armed(job), fs, []);
    FoldAppend(START, arguments, FieldLines(fs));
  }

  lemma BodyReads(job: Job, st: JobState, annotate: bool)
    requires Printable(job) && Shown(st)
    ensures var fs := IdentityFields(job) + StateFields(st, annotate);
            && Fold(START, Inside(job, fs)) == Some(Armed(job).(fields := MapOf(fs)))
            && Fold(START, Inside(job, fs) + [[CLOSE]])
               == Some(Armed(job).(fields := MapOf(fs), ended := true, depth := 0))
  {
    hide Step, Fold, Shown, Printable, IdentityFields, StateFields, Ranked, Ranks, FieldOk, Inside;
    var fs := IdentityFields(job) + StateFields(st, annotate);
    var q := Armed(job).(fields := MapOf(fs));
    FieldsRanked(job, st, annotate);
    ValuesOk(job, st, annotate);
    InsideReads(job, fs, Ranks(st));
    Ends(q);
    FoldOne(q, [CLOSE]);
    FoldAppend(START, Inside(job, fs), [[CLOSE]]);
  }

  /** Reading undoes printing, for every state that launchctl may show. */
  lemma PrintReads(job: Job, st: JobState, annotate: bool)
    requires Printable(job) && Shown(st)
    ensures ParseLines(job, Print(job, st, annotate)) == Some(st)
  {
    hide *;
    var fs := IdentityFields(job) + StateFields(st, annotate);
    BodyReads(job, st, annotate);
    FieldsRead(job, st, annotate);
    PrintIs(job, st, annotate);
    ParseFirst(job, job.target + OPEN, Inside(job, fs) + [[CLOSE]]);
    Concludes(job, MapOf(fs), st);
  }

  lemma PrintIs(job: Job, st: JobState, annotate: bool)
    ensures Print(job, st, annotate)
         == [job.target + OPEN] + (Inside(job, IdentityFields(job) + StateFields(st, annotate)) + [[CLOSE]])
  {
    hide ArgumentLines, FieldLines, IdentityFields, StateFields, Tabs, ARGUMENTS, OPEN;
  }

  lemma Concludes(job: Job, fields: map<bytes, bytes>, st: JobState)
    requires Identified(job, fields) && StateOf(fields) == Some(st)
    ensures Conclude(job, Armed(job).(fields := fields, ended := true, depth := 0)) == Some(st)
  {
    hide Identified, StateOf;
  }

  // ------------------------------------------------------------ the method

  datatype Output = Output(exit: int, stdout: bytes, stderr: bytes)

  /** The message for a job that is not loaded. */
  function Missing(job: Job): bytes {
    Ascii("Bad request.") + [NEWLINE] + Ascii("Could not find service ") + [0x22] + job.name + [0x22]
    + Ascii(" in domain for user gui: ") + job.uid + [NEWLINE]
  }

  function NoGui(job: Job): bytes {
    Ascii("Bad request.") + [NEWLINE] + Ascii("Could not find domain for user gui: ") + job.uid + [NEWLINE]
  }

  function ObserveFailure(job: Job, output: Output): Option<Observation> {
    if output.stdout != [] || !Utf8(output.stderr) then None
    else if output.exit == 113 && output.stderr == Missing(job) then Some(NotLoaded)
    else if output.exit == 112 && output.stderr == NoGui(job) then Some(GuiUnavailable)
    else None
  }

  /** Text that the line parser is given. */
  predicate Readable(text: bytes) {
    Utf8(text) && 0x0D !in text && 0 !in text
  }

  function Observe(job: Job, output: Output): Option<Observation> {
    if |output.stdout| > OUTPUT_LIMIT || |output.stderr| > OUTPUT_LIMIT then None
    else if output.exit != 0 then ObserveFailure(job, output)
    else if output.stderr != [] || !Readable(output.stdout) then None
    else match ParseLines(job, Lines(output.stdout))
      case None => None
      case Some(st) => Some(Loaded(st))
  }

  /** The loop over the lines, with the parser's state in local variables. */
  method ParseObservation(job: Job, output: Output) returns (r: Option<Observation>)
    ensures r == Observe(job, output)
  {
    if |output.stdout| > OUTPUT_LIMIT || |output.stderr| > OUTPUT_LIMIT {
      return None;
    }
    if output.exit != 0 {
      return ObserveFailure(job, output);
    }
    if output.stderr != [] || !Readable(output.stdout) {
      return None;
    }
    hide Step, StateOf, Identified, Utf8, Readable;
    var lines := Lines(output.stdout);
    if lines == [] || lines[0] != job.target + OPEN {
      return None;
    }
    var p := START;
    var i := 1;
    while i < |lines|
      invariant 1 <= i <= |lines| && p.depth <= MAX_DEPTH
      invariant Fold(START, lines[1..]) == Fold(p, lines[i..])
    {
      var next := ReadLine(p, lines[i]);
      FoldNext(p, lines, i);
      if next.None? {
        return None;
      }
      p := next.value;
      i := i + 1;
    }
    assert lines[i..] == [];
    var st := Conclude(job, p);
    r := if st.None? then None else Some(Loaded(st.value));
  }

  lemma FoldNext(p: Parse, lines: seq<bytes>, i: nat)
    requires i < |lines|
    ensures Fold(p, lines[i..]) == match Step(p, lines[i]) case None => None case Some(q) => Fold(q, lines[i + 1..])
  {
    hide Step;
    assert lines[i..][1..] == lines[i + 1..];
  }

  /** The loop body: one line, and the variables it updates. */
  method ReadLine(p: Parse, line: bytes) returns (r: Option<Parse>)
    requires p.depth <= MAX_DEPTH
    ensures r == Step(p, line)
    ensures r.Some? ==> r.value.depth <= MAX_DEPTH
  {
    hide BlankLine, Tabs, SplitOnce, StripPrefix, HasSuffix;
    if p.ended {
      return if BlankLine(line) then Some(p) else None;
    }
    if BlankLine(line) {
      return Some(p);
    }
    if p.inArguments {
      if line == [TAB, CLOSE] {
        return Some(p.(arguments := Some(p.args), args := [], inArguments := false));
      }
      var value := StripPrefix(line, Tabs(2));
      if value.None? || value.value == [] || value.value[0] == TAB || |p.args| >= MAX_ARGUMENTS {
        return None;
      }
      return Some(p.(args := p.args + [value.value]));
    }
    if line == [CLOSE] {
      return if p.depth == 1 then Some(p.(ended := true, depth := 0)) else None;
    }
    var depth := p.depth;
    if depth <= 1 {
      r := FieldLine(p, line);
    } else {
      if line == Tabs(depth - 1) + [CLOSE] {
        depth := depth - 1;
      } else {
        var value := StripPrefix(line, Tabs(depth));
        if value.None? || (value.value != [] && value.value[0] == TAB) {
          return None;
        }
        if HasSuffix(value.value, OPEN) || HasSuffix(value.value, OPEN_ARROW) {
          depth := depth + 1;
        }
      }
      r := if depth > MAX_DEPTH then None else Some(p.(depth := depth));
    }
  }

  /** Whatever the text, an accepted state is one that launchctl may show. */
  lemma AcceptedShown(job: Job, lines: seq<bytes>)
    requires ParseLines(job, lines).Some?
    ensures Shown(ParseLines(job, lines).value)
  {
    hide Fold, Ascii;
    var fields := Fold(START, lines[1..]).value.fields;
    if Lookup(fields, EXIT_CODE).Some? && ExitCode(Lookup(fields, EXIT_CODE).value).Some? {
      ExitCodeShape(Lookup(fields, EXIT_CODE).value, ExitCode(Lookup(fields, EXIT_CODE).value).value);
    }
  }

  /** The round trip on whole outputs. */
  lemma ObserveReads(job: Job, st: JobState, annotate: bool)
    requires Printable(job) && Shown(st)
    requires forall line <- Print(job, st, annotate) :: NEWLINE !in line
    requires var text := Unlines(Print(job, st, annotate)); Readable(text) && |text| <= OUTPUT_LIMIT
    ensures Observe(job, Output(0, Unlines(Print(job, st, annotate)), [])) == Some(Loaded(st))
  {
    hide Print, Readable, ParseLines, Printable, Shown;
    LinesOfUnlines(Print(job, st, annotate));
    PrintReads(job, st, annotate);
  }
}
