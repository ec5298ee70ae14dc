/** What each launchctl answer means, field by field. */
module LaunchdOutcomes {
  import opened Prelude
  import opened Launchd
  import opened LaunchdGrammar

  // src/engine/launchd.rs, `parse_observation`, `exit_code` and `positive_integer`,
  // stated by literal texts and numbers.

  /** Which answers mean that the job is not loaded, that there is no graphical
      session, or that the job is loaded; every other answer means nothing. */
  lemma ObserveExact(job: Job, output: Output)
    ensures var within := |output.stdout| <= 131_072 && |output.stderr| <= 131_072;
            && (Observe(job, output) == Some(NotLoaded) <==>
                  within && output.exit == 113 && output.stdout == [] && Utf8(output.stderr)
                  && output.stderr == Ascii("Bad request.") + [0x0A] + Ascii("Could not find service ") + [0x22] + job.name
                                      + [0x22] + Ascii(" in domain for user gui: ") + job.uid + [0x0A])
            && (Observe(job, output) == Some(GuiUnavailable) <==>
                  within && output.exit == 112 && output.stdout == [] && Utf8(output.stderr)
                  && output.stderr == Ascii("Bad request.") + [0x0A] + Ascii("Could not find domain for user gui: ") + job.uid + [0x0A])
            && (forall st :: Observe(job, output) == Some(Loaded(st)) <==>
                  within && output.exit == 0 && output.stderr == []
                  && Utf8(output.stdout) && 0x0D !in output.stdout && 0x00 !in output.stdout
                  && ParseLines(job, Lines(output.stdout)) == Some(st))
            && (output.exit != 0 && Observe(job, output).Some? ==> output.exit == 112 || output.exit == 113)
  {
    hide ParseLines, Ascii, Utf8;
  }

  // ------------------------------------------------------------ field by field

  /** A process or signal number: digits of a positive 32-bit value. */
  predicate Positive(t: bytes, n: nat) {
    AllDigits(t) && DecimalValue(t) == n && 0 < n < 0x1_0000_0000
  }

  const SYSEXITS: seq<string> := [
    "EX_USAGE", "EX_DATAERR", "EX_NOINPUT", "EX_NOUSER", "EX_NOHOST", "EX_UNAVAILABLE", "EX_SOFTWARE", "EX_OSERR",
    "EX_OSFILE", "EX_CANTCREAT", "EX_IOERR", "EX_TEMPFAIL", "EX_PROTOCOL", "EX_NOPERM", "EX_CONFIG"]

  /** Canonical decimal, alone or followed by the name that sysexits.h gives it. */
  predicate ExitShown(t: bytes, code: int) {
    && -0x8000_0000 <= code < 0x8000_0000
    && (t == IntegerText(code)
        || (code == 0 && t == Ascii("0: EX_OK"))
        || (64 <= code <= 78 && t == IntegerText(code) + Ascii(": ") + Ascii(SYSEXITS[code - 64])))
  }

  predicate Shows(fields: map<bytes, bytes>, key: string, text: bytes) {
    Ascii(key) in fields && fields[Ascii(key)] == text
  }

  /** The fields give this state, and name this job's files. */
  predicate FieldsShow(fields: map<bytes, bytes>, job: Job, st: JobState) {
    && Shows(fields, "path", job.plist) && Shows(fields, "type", Ascii("LaunchAgent"))
    && Shows(fields, "program", job.program) && Shows(fields, "working directory", job.directory)
    && Shows(fields, "stdout path", job.stdout) && Shows(fields, "stderr path", job.stderr)
    && Shows(fields, "state", st.state) && StateShown(st)
    && (if st.pid.None? then Ascii("pid") !in fields
        else Ascii("pid") in fields && Positive(fields[Ascii("pid")], st.pid.value))
    && (if st.signal.None? then Ascii("last terminating signal") !in fields
        else Ascii("last terminating signal") in fields
             && Positive(fields[Ascii("last terminating signal")], st.signal.value))
    && (if st.exit.None? then
          Ascii("last exit code") !in fields || fields[Ascii("last exit code")] == Ascii("(never exited)")
        else Ascii("last exit code") in fields && ExitShown(fields[Ascii("last exit code")], st.exit.value))
  }

  /** A running job has a process, and a job that ended has none. */
  predicate StateShown(st: JobState) {
    || (st.state == Ascii("running") && st.pid.Some?)
    || (st.state in [Ascii("not running"), Ascii("exited")] && st.pid.None?)
    || st.state in [Ascii("waiting"), Ascii("spawn scheduled"), Ascii("spawn failed")]
  }

  lemma PositiveIs(t: bytes, n: nat)
    ensures PositiveInteger(t) == Some(n) <==> Positive(t, n)
  {
  }

  lemma SymbolIs(code: int, t: bytes)
    requires 64 <= code <= 78
    ensures Symbol(code) == Some(Ascii(SYSEXITS[code - 64]))
  {
  }

  lemma ZeroText()
    ensures IntegerText(0) == [0x30] && Ascii("0: EX_OK") == [0x30] + [0x3A, SPACE] + Ascii("EX_OK")
  {
  }

  lemma ExitIs(t: bytes, code: int)
    ensures ExitCode(t) == Some(code) <==> ExitShown(t, code)
  {
    ExitCodeExact(t, code);
    ZeroText();
    ColonSpace();
    if 64 <= code <= 78 {
      SymbolIs(code, t);
    } else {
      SymbolOther(code);
    }
    hide Symbol, ExitCode, IntegerText, Ascii, SYSEXITS;
  }

  lemma ColonSpace()
    ensures Ascii(": ") == [0x3A, SPACE]
  {
  }

  lemma SymbolOther(code: int)
    requires !(64 <= code <= 78)
    ensures Symbol(code) == if code == 0 then Some(Ascii("EX_OK")) else None
  {
  }

  lemma StateIs(st: JobState)
    ensures StateOk(st.state, st.pid) <==> StateShown(st)
  {
    StatesApart();
    assert STATES == [Ascii("running"), Ascii("not running"), Ascii("exited"), Ascii("waiting"),
                      Ascii("spawn scheduled"), Ascii("spawn failed")];
    hide Ascii, STATES;
  }

  lemma StatesApart()
    ensures Ascii("running") != Ascii("not running") && Ascii("running") != Ascii("exited")
    ensures forall t <- [Ascii("waiting"), Ascii("spawn scheduled"), Ascii("spawn failed")] ::
              t != Ascii("running") && t != Ascii("not running") && t != Ascii("exited")
  {
    assert Ascii("waiting")[0] != Ascii("running")[0] && Ascii("spawn scheduled")[0] == 0x73;
    assert |Ascii("not running")| == 11 && |Ascii("spawn failed")| == 12;
  }

  lemma StateOfIs(fields: map<bytes, bytes>, st: JobState)
    ensures StateOf(fields) == Some(st) <==>
            && Lookup(fields, STATE) == Some(st.state) && StateOk(st.state, st.pid)
            && Optionally(Lookup(fields, PID), PositiveInteger) == Some(st.pid)
            && ReadExit(Lookup(fields, EXIT_CODE)) == Some(st.exit)
            && Optionally(Lookup(fields, SIGNAL), PositiveInteger) == Some(st.signal)
  {
    hide Lookup, Optionally, ReadExit, StateOk, PositiveInteger, Ascii;
  }

  lemma NumberIs(text: Option<bytes>, n: Option<nat>)
    ensures Optionally(text, PositiveInteger) == Some(n) <==>
            if n.None? then text.None? else text.Some? && Positive(text.value, n.value)
  {
    if text.Some? {
      if n.Some? {
        PositiveIs(text.value, n.value);
      }
    }
    hide PositiveInteger, Positive;
  }

  lemma ExitTextIs(text: Option<bytes>, exit: Option<int>)
    ensures ReadExit(text) == Some(exit) <==>
            if exit.None? then text.None? || text.value == NEVER_EXITED
            else text.Some? && ExitShown(text.value, exit.value)
  {
    NeverExited();
    if text.Some? && exit.Some? {
      ExitIs(text.value, exit.value);
    }
    hide ExitCode, ExitShown, Ascii;
  }

  /** Reading the fields is exactly their literal meaning. */
  lemma FieldsExact(fields: map<bytes, bytes>, job: Job, st: JobState)
    ensures Identified(job, fields) && StateOf(fields) == Some(st) <==> FieldsShow(fields, job, st)
  {
    StateOfIs(fields, st);
    StateIs(st);
    NumberIs(Lookup(fields, PID), st.pid);
    NumberIs(Lookup(fields, SIGNAL), st.signal);
    ExitTextIs(Lookup(fields, EXIT_CODE), st.exit);
    hide StateOf, StateOk, StateShown, Optionally, ReadExit, Positive, ExitShown, PositiveInteger, Ascii;
  }

  /** The whole grammar by literal texts: a description is read as a state exactly
      when its entries are well formed, give this job's arguments and files, and show
      that state. */
  lemma ReadsExactly(job: Job, lines: seq<bytes>, st: JobState)
    ensures ParseLines(job, lines) == Some(st) <==>
            lines != [] && lines[0] == job.target + Ascii(" = {")
            && exists entries ::
                 WellFormed(entries) && ArgumentsOf(entries) == Some(job.arguments)
                 && FieldsShow(FieldsOf(entries), job, st) && Dense(lines[1..]) == Layout(entries) + [Ascii("}")]
  {
    ParseExact(job, lines, st);
    assert Ascii(" = {") == OPEN && Ascii("}") == [CLOSE];
    hide Dense, Layout, WellFormed, ParseLines, Ascii, FieldsShow, Identified, StateOf;
    forall entries ensures Describes(entries, job, st) <==>
                           WellFormed(entries) && ArgumentsOf(entries) == Some(job.arguments)
                           && FieldsShow(FieldsOf(entries), job, st)
    {
      FieldsExact(FieldsOf(entries), job, st);
    }
  }

  /** A description of another job's files is never read, whatever else it says. */
  lemma OtherJobRejected(job: Job, lines: seq<bytes>, entries: seq<Entry>)
    requires lines != [] && Dense(lines[1..]) == Layout(entries) + [[CLOSE]] && WellFormed(entries)
    requires !Shows(FieldsOf(entries), "program", job.program) || !Shows(FieldsOf(entries), "path", job.plist)
          || ArgumentsOf(entries) != Some(job.arguments)
    ensures ParseLines(job, lines) == None
  {
    hide Layout, Dense, WellFormed, FieldsOf, ArgumentsOf, Fold;
    DenseFold(START, lines[1..]);
    Described(entries);
  }

  // ---------------------------------------------------------------- the text

  /** The separator occurs at this place. */
  predicate SeparatorAt(s: bytes, i: nat) {
    i + 2 < |s| && s[i] == 0x20 && s[i + 1] == 0x3D && s[i + 2] == 0x20
  }

  lemma {:induction false} CutSound(s: bytes)
    requires SplitOnce(s).Some?
    ensures var (a, b) := SplitOnce(s).value;
            s == a + [0x20, 0x3D, 0x20] + b && forall i :: 0 <= i < |a| ==> !SeparatorAt(s, i)
    decreases |s|
  {
    if s[..3] == EQUALS {
      assert s == [] + [0x20, 0x3D, 0x20] + s[3..];
    } else {
      CutSound(s[1..]);
      var (a, b) := SplitOnce(s[1..]).value;
      assert s == [s[0]] + s[1..];
      assert s[..3] == [s[0], s[1], s[2]];
      forall i | 0 <= i < |a| + 1 ensures !SeparatorAt(s, i) {
        if i > 0 {
          assert !SeparatorAt(s[1..], i - 1);
        }
      }
    }
  }

  lemma {:induction false} CutComplete(a: bytes, b: bytes)
    requires var s := a + [0x20, 0x3D, 0x20] + b; forall i :: 0 <= i < |a| ==> !SeparatorAt(s, i)
    ensures SplitOnce(a + [0x20, 0x3D, 0x20] + b) == Some((a, b))
    decreases |a|
  {
    var s := a + [0x20, 0x3D, 0x20] + b;
    assert s[..3] == [s[0], s[1], s[2]];
    if a == [] {
      assert s[3..] == b;
    } else {
      assert !SeparatorAt(s, 0);
      var t := a[1..] + [0x20, 0x3D, 0x20] + b;
      assert s[1..] == t;
      forall i | 0 <= i < |a[1..]| ensures !SeparatorAt(t, i) {
        assert !SeparatorAt(s, i + 1);
      }
      CutComplete(a[1..], b);
      assert [a[0]] + a[1..] == a;
    }
  }

  /** A field is cut at its first separator. */
  lemma CutAtFirst(s: bytes, a: bytes, b: bytes)
    ensures SplitOnce(s) == Some((a, b)) <==>
            s == a + [0x20, 0x3D, 0x20] + b && forall i :: 0 <= i < |a| ==> !SeparatorAt(s, i)
  {
    hide SplitOnce, SeparatorAt;
    if SplitOnce(s).Some? {
      CutSound(s);
    }
    if s == a + [0x20, 0x3D, 0x20] + b && forall i :: 0 <= i < |a| ==> !SeparatorAt(s, i) {
      CutComplete(a, b);
    }
  }

  lemma LinesNext(s: bytes)
    ensures var k := Find(s, NEWLINE);
            Lines(s) == if s == [] then [] else if k < |s| then [s[..k]] + Lines(s[k + 1..]) else [s]
  {
    hide Find;
    var k := Find(s, NEWLINE);
    if k == |s| {
      assert s[..k] == s;
    }
  }

  lemma UnlinesNext(line: bytes, more: seq<bytes>)
    ensures Unlines([line] + more) == line + [NEWLINE] + Unlines(more)
  {
    assert ([line] + more)[1..] == more;
  }

  /** The lines of a text, its last one terminated or not. */
  lemma {:induction false} LinesExact(s: bytes)
    ensures forall line <- Lines(s) :: NEWLINE !in line
    ensures Unlines(Lines(s)) == if s == [] || s[|s| - 1] == NEWLINE then s else s + [NEWLINE]
    decreases |s|
  {
    hide Lines, Unlines;
    var k := Find(s, NEWLINE);
    LinesNext(s);
    if s == [] {
      NoLines();
    } else if k < |s| {
      LinesExact(s[k + 1..]);
      UnlinesNext(s[..k], Lines(s[k + 1..]));
      Rejoins(s, k);
    } else {
      NoLines();
      UnlinesNext(s, []);
      assert [s] + [] == [s];
    }
  }

  lemma NoLines()
    ensures Unlines([]) == []
  {
  }

  lemma Rejoins(s: bytes, k: nat)
    requires k < |s| && s[k] == NEWLINE
    ensures s[..k] + [NEWLINE] + s[k + 1..] == s
    ensures s[..k] + [NEWLINE] + (s[k + 1..] + [NEWLINE]) == s + [NEWLINE]
  {
  }
}
