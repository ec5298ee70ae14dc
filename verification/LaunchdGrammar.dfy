/** Exactly which job descriptions the launchctl parser accepts. */
module LaunchdGrammar {
  import opened Prelude
  import opened Launchd

  // The layout behind `parse_observation` of src/engine/launchd.rs, as a grammar:
  // fields in any order, each key once, at most one list of arguments, blocks
  // nested by their indentation, one closing brace, and blank lines anywhere.

  /** What stands at the top level of a description. */
  datatype Entry = Arguments(list: seq<bytes>) | Scalar(text: bytes) | Section(head: bytes, body: seq<Nest>)

  function EntryText(e: Entry): seq<bytes> {
    match e
    case Arguments(list) => [Tabs(1) + Ascii("arguments = {")] + ArgumentLines(list) + [Tabs(1) + [0x7D]]
    case Scalar(text) => [Tabs(1) + text]
    case Section(head, body) => BlockLines(head, body)
  }

  function Layout(entries: seq<Entry>): seq<bytes> {
    if entries == [] then [] else EntryText(entries[0]) + Layout(entries[1..])
  }

  /** The key and value of a field. */
  function FieldOf(e: Entry): Option<(bytes, bytes)> {
    match e
    case Arguments(_) => None
    case Scalar(text) => SplitOnce(text)
    case Section(head, _) => SplitOnce(head)
  }

  predicate EntryOk(e: Entry) {
    match e
    case Arguments(list) => |list| <= 16 && forall a <- list :: ArgumentOk(a)
    case Scalar(text) =>
      Unindented(text) && text != ARGUMENTS && SplitOnce(text).Some? && SplitOnce(text).value.1 != BRACE
    case Section(head, body) =>
      Unindented(head) && head != ARGUMENTS && SplitOnce(head).Some? && SplitOnce(head).value.1 == BRACE
      && NestsOk(body, 2)
  }

  /** Two entries that cannot stand in one description. */
  predicate Clash(a: Entry, b: Entry) {
    if a.Arguments? || b.Arguments? then a.Arguments? && b.Arguments?
    else FieldOf(a).Some? && FieldOf(b).Some? && FieldOf(a).value.0 == FieldOf(b).value.0
  }

  predicate WellFormed(entries: seq<Entry>) {
    && (forall i :: 0 <= i < |entries| ==> EntryOk(entries[i]))
    && (forall i, j :: 0 <= i < j < |entries| ==> !Clash(entries[i], entries[j]))
  }

  /** The fields and the arguments that a description gives. */
  function FieldsOf(entries: seq<Entry>): map<bytes, bytes> {
    if entries == [] then map[]
    else
      var fields := FieldsOf(entries[..|entries| - 1]);
      match FieldOf(entries[|entries| - 1])
      case None => fields
      case Some((key, val)) => fields[key := val]
  }

  function ArgumentsOf(entries: seq<Entry>): Option<seq<bytes>> {
    if entries == [] then None
    else if entries[|entries| - 1].Arguments? then Some(entries[|entries| - 1].list)
    else ArgumentsOf(entries[..|entries| - 1])
  }

  /** The lines that are not blank. */
  function Dense(lines: seq<bytes>): seq<bytes> {
    if lines == [] then []
    else (if BlankLine(lines[0]) then [] else [lines[0]]) + Dense(lines[1..])
  }

  predicate Filled(lines: seq<bytes>) {
    forall line <- lines :: !BlankLine(line)
  }

  /** The parser between two entries. */
  function At(entries: seq<Entry>): Parse {
    Parse(1, FieldsOf(entries), ArgumentsOf(entries), false, [], false)
  }

  // ------------------------------------------------------------ blank lines

  lemma BlankStep(p: Parse, line: bytes)
    ensures BlankLine(line) ==> Step(p, line) == Some(p)
  {
    hide BlankLine, ArgumentLine, FieldLine, NestedLine;
  }

  lemma {:induction false} DenseFold(p: Parse, lines: seq<bytes>)
    ensures Fold(p, Dense(lines)) == Fold(p, lines)
    decreases |lines|
  {
    hide Step, BlankLine;
    if lines != [] {
      BlankStep(p, lines[0]);
      var rest := Dense(lines[1..]);
      if BlankLine(lines[0]) {
        assert Dense(lines) == rest;
        DenseFold(p, lines[1..]);
      } else {
        assert Dense(lines)[1..] == rest;
        if Step(p, lines[0]).Some? {
          DenseFold(Step(p, lines[0]).value, lines[1..]);
        }
      }
    }
  }

  lemma {:induction false} DenseFilled(lines: seq<bytes>)
    ensures Filled(Dense(lines))
  {
    hide BlankLine;
    if lines != [] {
      DenseFilled(lines[1..]);
    }
  }

  // ------------------------------------------- a description is accepted

  lemma AtNext(done: seq<Entry>, e: Entry)
    ensures FieldsOf(done + [e])
         == match FieldOf(e) case None => FieldsOf(done) case Some((key, val)) => FieldsOf(done)[key := val]
    ensures ArgumentsOf(done + [e]) == if e.Arguments? then Some(e.list) else ArgumentsOf(done)
  {
    hide FieldOf;
    assert (done + [e])[..|done|] == done;
  }

  lemma {:induction false} KnownKeys(entries: seq<Entry>, key: bytes)
    ensures key in FieldsOf(entries) <==>
            exists i :: 0 <= i < |entries| && FieldOf(entries[i]).Some? && FieldOf(entries[i]).value.0 == key
    ensures ArgumentsOf(entries).Some? <==> exists i :: 0 <= i < |entries| && entries[i].Arguments?
  {
    hide FieldOf;
    if entries != [] {
      var init, last := entries[..|entries| - 1], entries[|entries| - 1];
      assert entries == init + [last];
      AtNext(init, last);
      KnownKeys(init, key);
      if i :| 0 <= i < |init| && FieldOf(init[i]).Some? && FieldOf(init[i]).value.0 == key {
        assert entries[i] == init[i];
      }
      if i :| 0 <= i < |init| && init[i].Arguments? {
        assert entries[i] == init[i];
      }
    }
  }

  /** An entry may come next exactly when its key, or the arguments, are new. */
  lemma Fresh(done: seq<Entry>, e: Entry)
    requires WellFormed(done) && EntryOk(e)
    ensures WellFormed(done + [e]) <==>
            if e.Arguments? then ArgumentsOf(done).None?
            else FieldOf(e).Some? ==> FieldOf(e).value.0 !in FieldsOf(done)
  {
    var all := done + [e];
    KnownKeys(done, if FieldOf(e).Some? then FieldOf(e).value.0 else []);
    FieldEntry(e);
    hide FieldOf, EntryOk;
    assert forall i :: 0 <= i < |done| ==> all[i] == done[i];
    assert all[|done|] == e;
    if WellFormed(all) {
      forall i | 0 <= i < |done| ensures !Clash(done[i], e) {
        assert !Clash(all[i], all[|done|]);
      }
    }
  }

  lemma FieldEntry(e: Entry)
    ensures FieldOf(e).Some? ==> !e.Arguments?
  {
  }

  lemma ArgumentsBegin(p: Parse)
    requires TopLevel(p) && p.arguments.None?
    ensures Step(p, Tabs(1) + ARGUMENTS) == Some(p.(inArguments := true))
  {
    var line := Tabs(1) + ARGUMENTS;
    assert ARGUMENTS[10] == 0x3D && ARGUMENTS[0] == 0x61;
    assert 0x3D in line;
    hide Ascii;
    Indented(ARGUMENTS, 1);
    if BlankLine(line) {
      BlankPlain(line);
    }
  }

  lemma ArgumentsFit(p: Parse, list: seq<bytes>)
    requires TopLevel(p) && p.arguments.None? && p.args == []
    requires |list| <= MAX_ARGUMENTS && forall a <- list :: ArgumentOk(a)
    ensures Fold(p, [Tabs(1) + ARGUMENTS] + ArgumentLines(list) + [Tabs(1) + [CLOSE]])
         == Some(p.(arguments := Some(list)))
  {
    hide Step, ArgumentOk, Tabs, ARGUMENTS, ArgumentLines;
    var q := p.(inArguments := true);
    var r := q.(args := list);
    ArgumentsBegin(p);
    ArgumentsFold(q, list);
    assert [] + list == list;
    ArgumentsClose(r);
    FoldBlock(p, q, r, p.(arguments := Some(list)), Tabs(1) + ARGUMENTS, ArgumentLines(list), Tabs(1) + [CLOSE]);
  }

  lemma ArgumentsText(e: Entry)
    ensures EntryText(e) == match e
              case Arguments(list) => [Tabs(1) + ARGUMENTS] + ArgumentLines(list) + [Tabs(1) + [CLOSE]]
              case Scalar(text) => [Tabs(1) + text]
              case Section(head, body) => BlockLines(head, body)
  {
  }

  lemma EntryFold(done: seq<Entry>, e: Entry)
    requires WellFormed(done) && EntryOk(e) && WellFormed(done + [e])
    ensures Fold(At(done), EntryText(e)) == Some(At(done + [e]))
  {
    hide EntryText, Fold, Step, WellFormed, ArgumentOk, NestsOk, Tabs, ARGUMENTS, ArgumentLines, BlockLines;
    var p := At(done);
    ArgumentsText(e);
    AtNext(done, e);
    Fresh(done, e);
    match e
    case Arguments(list) =>
      ArgumentsFit(p, list);
    case Scalar(text) =>
      FieldStep(p, text, SplitOnce(text).value.0, SplitOnce(text).value.1);
      FoldOne(p, Tabs(1) + text);
    case Section(head, body) =>
      BlockFold(p, head, SplitOnce(head).value.0, body);
  }

  lemma WellFormedPart(done: seq<Entry>, more: seq<Entry>)
    requires more != [] && WellFormed(done + more)
    ensures WellFormed(done) && EntryOk(more[0]) && WellFormed(done + [more[0]])
    ensures done + [more[0]] + more[1..] == done + more
  {
    var all, part := done + more, done + [more[0]];
    hide EntryOk, Clash;
    assert forall i :: 0 <= i < |part| ==> all[i] == part[i];
    assert forall i :: 0 <= i < |done| ==> all[i] == done[i];
    assert all[|done|] == more[0];
  }

  lemma {:induction false} LayoutFold(done: seq<Entry>, more: seq<Entry>)
    requires WellFormed(done + more)
    ensures Fold(At(done), Layout(more)) == Some(At(done + more))
    decreases |more|
  {
    hide Fold, EntryText, EntryOk, WellFormed, At;
    if more == [] {
      assert done + more == done;
      FoldNothing(At(done));
    } else {
      WellFormedPart(done, more);
      EntryFold(done, more[0]);
      LayoutFold(done + [more[0]], more[1..]);
      FoldAppend(At(done), EntryText(more[0]), Layout(more[1..]));
    }
  }

  lemma Described(entries: seq<Entry>)
    requires WellFormed(entries)
    ensures Fold(START, Layout(entries) + [[CLOSE]]) == Some(At(entries).(ended := true, depth := 0))
  {
    hide Fold, Step, Layout, WellFormed;
    assert At([]) == START;
    assert [] + entries == entries;
    LayoutFold([], entries);
    Ends(At(entries));
    FoldOne(At(entries), [CLOSE]);
    FoldAppend(START, Layout(entries), [[CLOSE]]);
  }

  // ------------------------------------------- what is accepted is described

  lemma FoldFirst(p: Parse, lines: seq<bytes>)
    requires Fold(p, lines).Some? && Filled(lines)
    ensures lines == [] ==> Fold(p, lines) == Some(p)
    ensures lines != [] ==> Step(p, lines[0]).Some? && Fold(Step(p, lines[0]).value, lines[1..]) == Fold(p, lines)
    ensures lines != [] ==> !BlankLine(lines[0]) && Filled(lines[1..]) && lines == [lines[0]] + lines[1..]
  {
    hide Step, BlankLine;
  }

  /** A line at this indentation. */
  lemma Stripped(line: bytes, d: nat)
    requires StripPrefix(line, Tabs(d)).Some?
    ensures line == Tabs(d) + StripPrefix(line, Tabs(d)).value
  {
  }

  lemma NestedShape(p: Parse, line: bytes) returns (text: bytes)
    requires 2 <= p.depth <= MAX_DEPTH && !p.ended && !p.inArguments && !BlankLine(line) && Step(p, line).Some?
    ensures line == Tabs(p.depth - 1) + [CLOSE] ==> Step(p, line) == Some(p.(depth := p.depth - 1))
    ensures line != Tabs(p.depth - 1) + [CLOSE] ==>
              && line == Tabs(p.depth) + text && Unindented(text) && (Opens(text) ==> p.depth < MAX_DEPTH)
              && Step(p, line) == Some(if Opens(text) then p.(depth := p.depth + 1) else p)
  {
    text := [];
    if line != Tabs(p.depth - 1) + [CLOSE] {
      var got := StripPrefix(line, Tabs(p.depth));
      assert got.Some?;
      Stripped(line, p.depth);
      text := got.value;
    }
  }

  /** From inside a block: its lines, its closing brace, and the rest. */
  lemma {:induction false} NestScan(p: Parse, lines: seq<bytes>, q: Parse) returns (ns: seq<Nest>, rest: seq<bytes>)
    requires 2 <= p.depth <= MAX_DEPTH && !p.ended && !p.inArguments
    requires Filled(lines) && Fold(p, lines) == Some(q) && q.ended
    ensures lines == NestLines(ns, p.depth) + [Tabs(p.depth - 1) + [CLOSE]] + rest
    ensures NestsOk(ns, p.depth) && |rest| < |lines| && Filled(rest)
    ensures Fold(p.(depth := p.depth - 1), rest) == Some(q)
    decreases |lines|
  {
    hide *;
    var d := p.depth;
    FoldFirst(p, lines);
    var text := NestedShape(p, lines[0]);
    if lines[0] == Tabs(d - 1) + [CLOSE] {
      ns, rest := [], lines[1..];
      NestsNone(d);
    } else if Opens(text) {
      var body, after := NestScan(p.(depth := d + 1), lines[1..], q);
      var more;
      more, rest := NestScan(p, after, q);
      ns := [Block(text, body)] + more;
      NestsBlock(text, body, more, d);
      Regroup([Tabs(d) + text], NestLines(body, d + 1), [Tabs(d) + [CLOSE]], NestLines(more, d),
              [Tabs(d - 1) + [CLOSE]] + rest);
    } else {
      var more;
      more, rest := NestScan(p, lines[1..], q);
      ns := [Plain(text)] + more;
      NestsPlain(text, more, d);
    }
  }

  lemma NestsNone(d: nat)
    ensures NestLines([], d) == [] && NestsOk([], d)
  {
  }

  lemma NestsBlock(head: bytes, body: seq<Nest>, more: seq<Nest>, d: nat)
    requires Unindented(head) && Opens(head) && d < MAX_DEPTH && NestsOk(body, d + 1) && NestsOk(more, d)
    ensures NestsOk([Block(head, body)] + more, d)
    ensures NestLines([Block(head, body)] + more, d)
         == [Tabs(d) + head] + NestLines(body, d + 1) + [Tabs(d) + [CLOSE]] + NestLines(more, d)
  {
    hide Unindented, Opens, Tabs;
    assert ([Block(head, body)] + more)[1..] == more;
  }

  lemma NestsPlain(text: bytes, more: seq<Nest>, d: nat)
    requires Unindented(text) && !Opens(text) && NestsOk(more, d)
    ensures NestsOk([Plain(text)] + more, d)
    ensures NestLines([Plain(text)] + more, d) == [Tabs(d) + text] + NestLines(more, d)
  {
    hide Unindented, Opens, Tabs;
    assert ([Plain(text)] + more)[1..] == more;
  }

  lemma Regroup(a: seq<bytes>, b: seq<bytes>, c: seq<bytes>, d: seq<bytes>, e: seq<bytes>)
    ensures a + (b + c + (d + e)) == (a + b + c + d) + e
  {
  }

  lemma ArgumentShape(p: Parse, line: bytes) returns (a: bytes)
    requires p.inArguments && !p.ended && !BlankLine(line) && Step(p, line).Some?
    ensures line == Tabs(1) + [CLOSE] ==>
              Step(p, line) == Some(p.(arguments := Some(p.args), args := [], inArguments := false))
    ensures line != Tabs(1) + [CLOSE] ==>
              && line == Tabs(2) + a && ArgumentOk(a) && |p.args| < MAX_ARGUMENTS
              && Step(p, line) == Some(p.(args := p.args + [a]))
  {
    assert Tabs(1) + [CLOSE] == [TAB, CLOSE];
    a := [];
    if line != [TAB, CLOSE] {
      assert StripPrefix(line, Tabs(2)).Some?;
      Stripped(line, 2);
      a := StripPrefix(line, Tabs(2)).value;
    }
  }

  /** From inside the arguments: the list, its closing brace, and the rest. */
  lemma {:induction false} ArgumentScan(p: Parse, lines: seq<bytes>, q: Parse)
    returns (list: seq<bytes>, rest: seq<bytes>)
    requires p.inArguments && !p.ended && |p.args| <= MAX_ARGUMENTS
    requires Filled(lines) && Fold(p, lines) == Some(q) && q.ended
    ensures lines == ArgumentLines(list) + [Tabs(1) + [CLOSE]] + rest
    ensures |p.args| + |list| <= MAX_ARGUMENTS && (forall a <- list :: ArgumentOk(a))
    ensures |rest| < |lines| && Filled(rest)
    ensures Fold(p.(arguments := Some(p.args + list), args := [], inArguments := false), rest) == Some(q)
    decreases |lines|
  {
    hide *;
    FoldFirst(p, lines);
    var a := ArgumentShape(p, lines[0]);
    if lines[0] == Tabs(1) + [CLOSE] {
      list, rest := [], lines[1..];
      ArgumentsNone();
      assert p.args + [] == p.args;
    } else {
      var more;
      more, rest := ArgumentScan(p.(args := p.args + [a]), lines[1..], q);
      list := [a] + more;
      ArgumentsPlus(a, more);
      assert p.args + [a] + more == p.args + list;
    }
  }

  lemma ArgumentsNone()
    ensures ArgumentLines([]) == []
  {
  }

  lemma ArgumentsPlus(a: bytes, more: seq<bytes>)
    ensures ArgumentLines([a] + more) == [Tabs(2) + a] + ArgumentLines(more)
  {
    assert ([a] + more)[1..] == more;
  }

  lemma FieldShape(p: Parse, line: bytes) returns (text: bytes)
    requires TopLevel(p) && !BlankLine(line) && line != [CLOSE] && Step(p, line).Some?
    ensures line == Tabs(1) + text && Unindented(text)
    ensures text == ARGUMENTS ==> p.arguments.None? && Step(p, line) == Some(p.(inArguments := true))
    ensures text != ARGUMENTS ==>
              && SplitOnce(text).Some?
              && var (key, val) := SplitOnce(text).value;
              key !in p.fields
              && Step(p, line) == Some(p.(fields := p.fields[key := val], depth := if val == BRACE then 2 else 1))
  {
    hide ARGUMENTS;
    Stripped(line, 1);
    text := StripPrefix(line, Tabs(1)).value;
  }

  lemma CloseShape(p: Parse)
    requires TopLevel(p)
    ensures Step(p, [CLOSE]) == Some(p.(ended := true, depth := 0))
  {
    Ends(p);
  }

  lemma NothingAfter(p: Parse, lines: seq<bytes>)
    requires p.ended && Filled(lines) && Fold(p, lines).Some?
    ensures lines == []
  {
    hide BlankLine;
  }

  lemma {:induction false} TopScan(done: seq<Entry>, lines: seq<bytes>, q: Parse) returns (more: seq<Entry>)
    requires WellFormed(done) && Filled(lines) && Fold(At(done), lines) == Some(q) && q.ended
    ensures lines == Layout(more) + [[CLOSE]] && WellFormed(done + more)
    ensures q == At(done + more).(ended := true, depth := 0)
    decreases |lines|
  {
    hide *;
    var p := At(done);
    AtIs(done);
    FoldFirst(p, lines);
    if lines[0] == [CLOSE] {
      CloseShape(p);
      NothingAfter(Step(p, [CLOSE]).value, lines[1..]);
      FoldNothing(Step(p, [CLOSE]).value);
      more := [];
      LayoutNone();
      assert done + [] == done;
    } else {
      var e, rest := EntryScan(done, lines, q);
      var others := TopScan(done + [e], rest, q);
      more := [e] + others;
      LayoutPlus(e, others);
      assert done + [e] + others == done + more;
    }
  }

  lemma AtIs(done: seq<Entry>)
    ensures TopLevel(At(done)) && At(done).args == [] && !At(done).ended
    ensures At(done).fields == FieldsOf(done) && At(done).arguments == ArgumentsOf(done)
    ensures At(done) == Parse(1, FieldsOf(done), ArgumentsOf(done), false, [], false)
  {
  }

  lemma LayoutNone()
    ensures Layout([]) == []
  {
  }

  lemma LayoutPlus(e: Entry, more: seq<Entry>)
    ensures Layout([e] + more) == EntryText(e) + Layout(more)
  {
    hide EntryText;
    assert ([e] + more)[1..] == more;
  }

  /** The next entry at the top level, and the rest. */
  lemma EntryScan(done: seq<Entry>, lines: seq<bytes>, q: Parse) returns (e: Entry, rest: seq<bytes>)
    requires WellFormed(done) && Filled(lines) && Fold(At(done), lines) == Some(q) && q.ended
    requires lines != [] && lines[0] != [CLOSE]
    ensures lines == EntryText(e) + rest && WellFormed(done + [e])
    ensures |rest| < |lines| && Filled(rest) && Fold(At(done + [e]), rest) == Some(q)
  {
    hide *;
    var p := At(done);
    AtIs(done);
    FoldFirst(p, lines);
    var text := FieldShape(p, lines[0]);
    if text == ARGUMENTS {
      var list;
      list, rest := ArgumentScan(p.(inArguments := true), lines[1..], q);
      assert [] + list == list;
      e := Arguments(list);
      ArgumentsEntry(list);
    } else if SplitOnce(text).value.1 == BRACE {
      var body;
      OneDeeper();
      body, rest := NestScan(Step(p, lines[0]).value, lines[1..], q);
      e := Section(text, body);
      SectionEntry(text, body);
    } else {
      e, rest := Scalar(text), lines[1..];
      ScalarEntry(text);
    }
    Fresh(done, e);
    AtNext(done, e);
    AtIs(done + [e]);
  }

  lemma OneDeeper()
    ensures 2 <= MAX_DEPTH
  {
  }

  lemma ArgumentsEntry(list: seq<bytes>)
    requires |list| <= MAX_ARGUMENTS && forall a <- list :: ArgumentOk(a)
    ensures EntryOk(Arguments(list)) && FieldOf(Arguments(list)) == None
    ensures EntryText(Arguments(list)) == [Tabs(1) + ARGUMENTS] + ArgumentLines(list) + [Tabs(1) + [CLOSE]]
  {
  }

  lemma SectionEntry(head: bytes, body: seq<Nest>)
    requires Unindented(head) && head != ARGUMENTS && SplitOnce(head).Some? && SplitOnce(head).value.1 == BRACE
    requires NestsOk(body, 2)
    ensures var e := Section(head, body);
            && EntryOk(e) && FieldOf(e) == SplitOnce(head)
            && EntryText(e) == [Tabs(1) + head] + NestLines(body, 2) + [Tabs(1) + [CLOSE]]
  {
  }

  lemma ScalarEntry(text: bytes)
    requires Unindented(text) && text != ARGUMENTS && SplitOnce(text).Some? && SplitOnce(text).value.1 != BRACE
    ensures EntryOk(Scalar(text)) && FieldOf(Scalar(text)) == SplitOnce(text)
    ensures EntryText(Scalar(text)) == [Tabs(1) + text]
  {
  }

  // ------------------------------------------------------------ the theorem

  /** A description of this job in this state. */
  predicate Describes(entries: seq<Entry>, job: Job, st: JobState) {
    && WellFormed(entries) && ArgumentsOf(entries) == Some(job.arguments)
    && Identified(job, FieldsOf(entries)) && StateOf(FieldsOf(entries)) == Some(st)
  }

  /** The parser reads a state exactly from the descriptions that give it: after the
      first line, well-formed entries in any order and one closing brace, with blank
      lines anywhere. */
  lemma ParseExact(job: Job, lines: seq<bytes>, st: JobState)
    ensures ParseLines(job, lines) == Some(st) <==>
            lines != [] && lines[0] == job.target + OPEN
            && exists entries ::
                 Describes(entries, job, st) && Dense(lines[1..]) == Layout(entries) + [[CLOSE]]
  {
    hide Fold, Layout, Dense, Identified, StateOf, FieldsOf, ArgumentsOf, WellFormed, OPEN;
    if lines != [] && lines[0] == job.target + OPEN {
      DenseFold(START, lines[1..]);
      DenseFilled(lines[1..]);
      if ParseLines(job, lines) == Some(st) {
        var q := Fold(START, lines[1..]).value;
        NoEntries();
        var entries := TopScan([], Dense(lines[1..]), q);
        assert [] + entries == entries;
        assert Describes(entries, job, st);
      }
      forall entries | Describes(entries, job, st) && Dense(lines[1..]) == Layout(entries) + [[CLOSE]]
        ensures ParseLines(job, lines) == Some(st)
      {
        Described(entries);
      }
    }
  }

  lemma NoEntries()
    ensures At([]) == START && WellFormed([])
  {
  }

  // ---------------------------------------- blocks that turn a text away

  /** The same description with a block before its closing brace. */
  function WithBlock(job: Job, fs: seq<Field>, head: bytes, body: seq<Nest>): seq<bytes> {
    [job.target + OPEN] + (Inside(job, fs) + BlockLines(head, body) + [[CLOSE]])
  }

  function Without(job: Job, fs: seq<Field>): seq<bytes> {
    [job.target + OPEN] + (Inside(job, fs) + [[CLOSE]])
  }

  lemma BlockTurnsAway(job: Job, fs: seq<Field>, st: JobState, head: bytes, key: bytes, body: seq<Nest>)
    requires Absolute(job) && Fold(START, Inside(job, fs)) == Some(Armed(job).(fields := MapOf(fs)))
    requires Identified(job, MapOf(fs)) && StateOf(MapOf(fs)) == Some(st)
    requires FieldBlock(head, key, body) && key in OPTIONAL && Lookup(MapOf(fs), key).None?
    ensures ParseLines(job, Without(job, fs)) == Some(st)
    ensures ParseLines(job, WithBlock(job, fs, head, body)) == None
  {
    hide Fold, Step, Inside, Identified, StateOf, FieldBlock, BlockLines, OPTIONAL, MapOf, OPEN;
    var p := Armed(job).(fields := MapOf(fs));
    Ends(p);
    FoldOne(p, [CLOSE]);
    FoldAppend(START, Inside(job, fs), [[CLOSE]]);
    ParseFirst(job, job.target + OPEN, Inside(job, fs) + [[CLOSE]]);
    Concludes(job, MapOf(fs), st);
    InsertBlock(job, job.target + OPEN, Inside(job, fs), p, [[CLOSE]], head, key, body);
  }

  /** A block opened by a key that may be absent. */
  lemma OptionalBlock(key: bytes, body: seq<Nest>)
    requires key in OPTIONAL && NestsOk(body, 2)
    ensures FieldBlock(key + EQUALS + BRACE, key, body)
  {
    hide NestsOk, SplitOnce, OPTIONAL, ARGUMENTS;
    OptionalKeys(key);
    SplitAt(key, BRACE);
    ArgumentsSplit();
    assert (key + EQUALS + BRACE)[0] == key[0];
  }

  lemma ArgumentsSplit()
    ensures SplitOnce(ARGUMENTS).Some? && |SplitOnce(ARGUMENTS).value.0| == 9
  {
    PlainText("arguments");
    SplitAt(Ascii("arguments"), BRACE);
    assert Ascii("arguments") + EQUALS + BRACE == ARGUMENTS;
  }

  lemma OptionalKeys(key: bytes)
    requires key in OPTIONAL
    ensures key != [] && key[0] != TAB && 0x3D !in key && |key| != 9
  {
    PlainText("pid");
    PlainText("last exit code");
    PlainText("last terminating signal");
  }

  /** A printed description reads back; with a `pid` block before its closing brace,
      when the job shows no process, it is rejected. */
  lemma PidBlockRejected(job: Job, st: JobState, annotate: bool, body: seq<Nest>)
    requires Printable(job) && Shown(st) && st.pid.None? && NestsOk(body, 2)
    ensures var fs := IdentityFields(job) + StateFields(st, annotate);
            && Without(job, fs) == Print(job, st, annotate)
            && ParseLines(job, Print(job, st, annotate)) == Some(st)
            && ParseLines(job, WithBlock(job, fs, PID + EQUALS + BRACE, body)) == None
  {
    hide Fold, Ascii, NestsOk, Shown, Identified, StateOf, IdentityFields, StateFields, FieldBlock, Inside, MapOf, Ranked,
      OPEN;
    var fs := IdentityFields(job) + StateFields(st, annotate);
    BodyReads(job, st, annotate);
    FieldsRead(job, st, annotate);
    PrintIs(job, st, annotate);
    FieldsRanked(job, st, annotate);
    RanksAt(st);
    assert KEYS[7] == PID;
    RankedLookup(fs, Ranks(st), 7);
    OptionalBlock(PID, body);
    BlockTurnsAway(job, fs, st, PID + EQUALS + BRACE, PID, body);
  }

  /** Identity and state alone, with none of the fields that may be absent. */
  function BareFields(job: Job, state: bytes): seq<Field> {
    IdentityFields(job) + [Field(STATE, state)]
  }

  lemma BareAt(job: Job, state: bytes)
    ensures var fs := BareFields(job, state);
            && |fs| == 7 && fs[0] == Field(KEYS[0], job.plist) && fs[1] == Field(KEYS[1], Ascii("LaunchAgent"))
            && fs[2] == Field(KEYS[2], job.program) && fs[3] == Field(KEYS[3], job.directory)
            && fs[4] == Field(KEYS[4], job.stdout) && fs[5] == Field(KEYS[5], job.stderr)
            && fs[6] == Field(KEYS[6], state)
  {
    hide Ascii;
  }

  const BARE: seq<nat> := [0, 1, 2, 3, 4, 5, 6]

  lemma BareRanked(job: Job, state: bytes)
    ensures Ranked(BareFields(job, state), BARE)
  {
    BareAt(job, state);
    hide Ascii, BareFields;
    assert |KEYS| == 10;
    hide KEYS;
    var fs := BareFields(job, state);
    forall i | 0 <= i < 7 ensures BARE[i] < |KEYS| && fs[i].key == KEYS[BARE[i]] {
      assert i == 0 || i == 1 || i == 2 || i == 3 || i == 4 || i == 5 || i == 6;
    }
  }

  lemma BareOk(job: Job, state: bytes)
    requires Printable(job) && state in STATES
    ensures forall f <- BareFields(job, state) :: FieldOk(f)
  {
    var fs := BareFields(job, state);
    BareAt(job, state);
    BareRanked(job, state);
    BraceReads();
    hide Ascii, KEYS, BareFields, STATES;
    forall f | f in fs ensures FieldOk(f) {
      var i :| 0 <= i < |fs| && fs[i] == f;
      KeysPlain(BARE[i]);
      assert i == 0 || i == 1 || i == 2 || i == 3 || i == 4 || i == 5 || i == 6;
    }
  }

  lemma BareReads(job: Job, state: bytes)
    requires StateOk(state, None)
    ensures var fields := MapOf(BareFields(job, state));
            && Identified(job, fields) && StateOf(fields) == Some(JobState(None, state, None, None))
            && forall key <- OPTIONAL :: Lookup(fields, key).None?
  {
    var fs := BareFields(job, state);
    BareRanked(job, state);
    BareAt(job, state);
    hide *;
    BareLookups(job, fs, state);
    BareState(job, MapOf(fs), state);
  }

  lemma BareState(job: Job, fields: map<bytes, bytes>, state: bytes)
    requires StateOk(state, None) && Lookup(fields, STATE) == Some(state)
    requires Lookup(fields, PID) == None && Lookup(fields, EXIT_CODE) == None && Lookup(fields, SIGNAL) == None
    ensures StateOf(fields) == Some(JobState(None, state, None, None))
    ensures forall key <- OPTIONAL :: Lookup(fields, key).None?
  {
    hide Ascii, Lookup, StateOk;
  }

  lemma BareLookups(job: Job, fs: seq<Field>, state: bytes)
    requires fs == BareFields(job, state) && Ranked(fs, BARE)
    ensures Identified(job, MapOf(fs)) && Lookup(MapOf(fs), STATE) == Some(state)
    ensures Lookup(MapOf(fs), PID) == None && Lookup(MapOf(fs), EXIT_CODE) == None && Lookup(MapOf(fs), SIGNAL) == None
  {
    BareAt(job, state);
    BareAbsent(fs);
    hide Ascii, Lookup, MapOf, Ranked, BareFields, PID, EXIT_CODE, SIGNAL, OPTIONAL;
    RankedLookup(fs, BARE, 0);
    RankedLookup(fs, BARE, 1);
    RankedLookup(fs, BARE, 2);
    RankedLookup(fs, BARE, 3);
    RankedLookup(fs, BARE, 4);
    RankedLookup(fs, BARE, 5);
    RankedLookup(fs, BARE, 6);
  }

  lemma BareAbsent(fs: seq<Field>)
    requires Ranked(fs, BARE)
    ensures Lookup(MapOf(fs), PID) == None && Lookup(MapOf(fs), EXIT_CODE) == None && Lookup(MapOf(fs), SIGNAL) == None
  {
    hide Ascii, Lookup, MapOf, Ranked;
    assert KEYS[7] == PID && KEYS[8] == EXIT_CODE && KEYS[9] == SIGNAL && |KEYS| == 10;
    hide KEYS;
    RankedLookup(fs, BARE, 7);
    RankedLookup(fs, BARE, 8);
    RankedLookup(fs, BARE, 9);
  }

  /** Every key that may be absent has its failing input: the bare description of a
      job is accepted, and rejected with a block under that key. */
  lemma OptionalBlockRejected(job: Job, state: bytes, key: bytes, body: seq<Nest>)
    requires Printable(job) && StateOk(state, None) && key in OPTIONAL && NestsOk(body, 2)
    ensures var fs := BareFields(job, state);
            && ParseLines(job, Without(job, fs)) == Some(JobState(None, state, None, None))
            && ParseLines(job, WithBlock(job, fs, key + EQUALS + BRACE, body)) == None
  {
    hide Fold, Ascii, NestsOk, Identified, StateOf, FieldBlock, Inside, MapOf, Ranked, FieldOk, OPTIONAL, BareFields, OPEN;
    var fs := BareFields(job, state);
    BareRanked(job, state);
    BareOk(job, state);
    InsideReads(job, fs, BARE);
    BareReads(job, state);
    OptionalBlock(key, body);
    BlockTurnsAway(job, fs, JobState(None, state, None, None), key + EQUALS + BRACE, key, body);
  }
}
