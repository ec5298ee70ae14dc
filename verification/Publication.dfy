/** Exclusive publication of diagnostic exports by hard link. */
module Publication {
  import opened Prelude

  // src/engine/diagnostic_io.rs, `write_export` and `Pending`. Any number of
  // exporters share a directory and interleave freely, and each may stop at any
  // point. A name appears and disappears atomically, and inode numbers are never
  // reused.

  const MAX_BYTES: nat := 1024 * 1024

  /** How an export ends: in doubt after a link that was reported as made, refused
      without one. */
  datatype Outcome = Success | Uncertain | Refused

  datatype Pc =
    | Begin
    | Absent
    | Writing
    | Ready
    | Confirmed
    | Linked
    | Removing
    | Tidied
    | Closing(outcome: Outcome)
    | Dropping(outcome: Outcome)
    | Done(outcome: Outcome)
    | Crashed

  datatype Private = Private(name: bytes, inode: nat)

  /** `private` is the temporary file this exporter created, `linked` whether it
      then linked it to its destination, and `unheard` whether that link took
      effect and was reported as an error all the same. */
  datatype Exporter = Exporter(
    dest: bytes, raw: bytes, pc: Pc, private: Option<Private>, linked: bool, unheard: bool)

  /** `owners` says which exporter created an inode; others were there before. */
  datatype World = World(
    names: map<bytes, nat>, inodes: seq<bytes>, owners: map<nat, nat>, exporters: map<nat, Exporter>)

  datatype Step =
    | Start(e: nat, dest: bytes, raw: bytes)
    | Look(e: nat)
    | Create(e: nat, name: bytes)
    | Write(e: nat, count: nat)
    | Finish(e: nat)
    | Confirm(e: nat)
    | Link(e: nat)
    | LinkUnheard(e: nat)
    | Inspect(e: nat)
    | Unlink(e: nat)
    | Conclude(e: nat)
    | Fail(e: nat)
    | Crash(e: nat)

  function Get(w: World, e: nat): Exporter {
    if e in w.exporters then w.exporters[e] else Exporter([], [], Crashed, None, false, false)
  }

  /** The private file is still under its private name. */
  predicate Held(w: World, x: Exporter) {
    x.private.Some? && x.private.value.name in w.names && w.names[x.private.value.name] == x.private.value.inode
  }

  /** The private file is full. */
  predicate Full(w: World, x: Exporter) {
    x.private.Some? && x.private.value.inode < |w.inodes| && |w.inodes[x.private.value.inode]| == |x.raw|
  }

  predicate Enabled(w: World, s: Step) {
    var x := Get(w, s.e);
    match s
    case Start(e, _, raw) => e !in w.exporters && |raw| <= MAX_BYTES
    case Look(_) => x.pc.Begin?
    case Create(_, name) => x.pc.Absent? && name !in w.names
    case Write(_, count) =>
      x.pc.Writing? && x.private.Some? && x.private.value.inode < |w.inodes|
      && |w.inodes[x.private.value.inode]| + count <= |x.raw|
    case Finish(_) => x.pc.Writing? && Full(w, x)
    case Confirm(_) => x.pc.Ready?
    case Link(_) => x.pc.Confirmed? && x.private.Some? && x.private.value.name in w.names
    case LinkUnheard(_) =>
      x.pc.Confirmed? && x.private.Some? && x.private.value.name in w.names && x.dest !in w.names
    case Inspect(_) => x.pc.Linked? || x.pc.Closing?
    case Unlink(_) => (x.pc.Removing? || x.pc.Dropping?) && x.private.Some? && x.private.value.name in w.names
    case Conclude(_) => x.pc.Tidied?
    case Fail(_) => !x.pc.Done? && !x.pc.Crashed?
    case Crash(_) => !x.pc.Done? && !x.pc.Crashed?
  }

  /** Where an error leads: doubt after a link that was reported as made, refusal
      otherwise. */
  function Failed(x: Exporter): Pc {
    var outcome := if x.linked && !x.unheard then Uncertain else Refused;
    match x.pc
    case Begin => Done(outcome)
    case Absent => Done(outcome)
    case Closing(earlier) => Done(earlier)
    case Dropping(earlier) => Done(earlier)
    case _ => Closing(outcome)
  }

  function Move(w: World, e: nat, pc: Pc): World {
    w.(exporters := w.exporters[e := Get(w, e).(pc := pc)])
  }

  function Next(w: World, s: Step): World
    requires Enabled(w, s)
  {
    var x := Get(w, s.e);
    match s
    case Start(e, dest, raw) => w.(exporters := w.exporters[e := Exporter(dest, raw, Begin, None, false, false)])
    case Look(e) => Move(w, e, if x.dest in w.names then Done(Refused) else Absent)
    case Create(e, name) =>
      var inode := |w.inodes|;
      World(w.names[name := inode], w.inodes + [[]], w.owners[inode := e],
            w.exporters[e := x.(pc := Writing, private := Some(Private(name, inode)))])
    case Write(e, count) =>
      var had := w.inodes[x.private.value.inode];
      w.(inodes := w.inodes[x.private.value.inode := had + x.raw[|had|..|had| + count]])
    case Finish(e) => Move(w, e, Ready)
    case Confirm(e) => Move(w, e, if Held(w, x) then Confirmed else Failed(x))
    case Link(e) =>
      if x.dest in w.names then Move(w, e, Failed(x))
      else World(w.names[x.dest := w.names[x.private.value.name]], w.inodes, w.owners,
                 w.exporters[e := x.(pc := Linked, linked := true)])
    case LinkUnheard(e) =>
      World(w.names[x.dest := w.names[x.private.value.name]], w.inodes, w.owners,
            w.exporters[e := x.(pc := Closing(Refused), linked := true, unheard := true)])
    case Inspect(e) =>
      Move(w, e,
           if Held(w, x) then (if x.pc.Linked? then Removing else Dropping(x.pc.outcome))
           else if x.pc.Linked? && x.private.Some? && x.private.value.name !in w.names then Tidied
           else Failed(x))
    case Unlink(e) =>
      Move(w.(names := w.names - {x.private.value.name}), e,
           if x.pc.Removing? then Tidied else Done(x.pc.outcome))
    case Conclude(e) =>
      Move(w, e,
           if x.private.Some? && x.dest in w.names && w.names[x.dest] == x.private.value.inode && Full(w, x)
           then Closing(Success) else Failed(x))
    case Fail(e) => Move(w, e, Failed(x))
    case Crash(e) => Move(w, e, Crashed)
  }

  /** Any directory, before any exporter. */
  predicate Initial(w: World) {
    w.owners == map[] && w.exporters == map[] && forall n <- w.names :: w.names[n] < |w.inodes|
  }

  ghost predicate Run(ws: seq<World>, steps: seq<Step>) {
    && |ws| == |steps| + 1 && Initial(ws[0])
    && forall i :: 0 <= i < |steps| ==> Enabled(ws[i], steps[i]) && ws[i + 1] == Next(ws[i], steps[i])
  }

  // ------------------------------------------------------------ the invariant

  /** A name denotes a file from before, or its creator's export under its private
      name or under the destination that the creator linked. */
  ghost predicate NameOk(w: World, n: bytes)
    requires n in w.names
  {
    var i := w.names[n];
    && i < |w.inodes|
    && (i in w.owners ==>
          var x := Get(w, w.owners[i]);
          x.private.Some? && x.private.value.inode == i && (n == x.private.value.name || (x.linked && n == x.dest)))
  }

  ghost predicate NamesOk(w: World) {
    && (forall n <- w.names :: NameOk(w, n))
    && (forall i <- w.owners :: i < |w.inodes| && w.owners[i] in w.exporters)
  }

  /** An exporter's private file: its own, a prefix of the export, and at these
      points complete or under its private name. */
  ghost predicate PrivateOk(w: World, e: nat, x: Exporter) {
    && (x.private.Some? ==>
          x.private.value.inode in w.owners && w.owners[x.private.value.inode] == e
          && x.private.value.inode < |w.inodes| && w.inodes[x.private.value.inode] <= x.raw)
    && (x.pc.Begin? || x.pc.Absent? ==> x.private.None?)
    && (x.pc.Writing? || x.pc.Ready? || x.pc.Confirmed? || x.pc.Linked? || x.pc.Removing? || x.pc.Dropping? ==>
          Held(w, x))
    && (x.pc.Tidied? ==> x.private.Some?)
    && (x.pc.Ready? || x.pc.Confirmed? || x.linked ==> x.private.Some? && w.inodes[x.private.value.inode] == x.raw)
  }

  /** An exporter's destination: linked for good, or not linked by it at all. */
  ghost predicate LinkedOk(w: World, x: Exporter) {
    && (x.linked ==>
          x.private.Some? && x.dest in w.names && w.names[x.dest] == x.private.value.inode
          && x.dest != x.private.value.name)
    && (x.pc.Begin? || x.pc.Absent? || x.pc.Writing? || x.pc.Ready? || x.pc.Confirmed? ==> !x.linked)
    && (x.pc.Linked? || x.pc.Removing? || x.pc.Tidied? ==> x.linked && !x.unheard)
    && (x.unheard ==> x.linked)
    && (x.pc.Closing? || x.pc.Dropping? || x.pc.Done? ==> (x.pc.outcome.Refused? <==> !x.linked || x.unheard))
  }

  ghost predicate ExporterOk(w: World, e: nat) {
    PrivateOk(w, e, Get(w, e)) && LinkedOk(w, Get(w, e))
  }

  ghost predicate Inv(w: World) {
    NamesOk(w) && forall e <- w.exporters :: ExporterOk(w, e)
  }

  // ------------------------------------------------------------ every step

  lemma NamesKept(w: World, s: Step)
    requires Inv(w) && Enabled(w, s)
    ensures NamesOk(Next(w, s))
  {
    var v := Next(w, s);
    if s.e in w.exporters {
      assert ExporterOk(w, s.e);
    }
    OwnersKept(w, s);
    hide Next, Enabled, NameOk, ExporterOk;
    forall n | n in v.names ensures NameOk(v, n) {
      NameKept(w, s, n);
    }
  }

  lemma NameKept(w: World, s: Step, n: bytes)
    requires NamesOk(w) && Enabled(w, s) && (s.e in w.exporters ==> ExporterOk(w, s.e)) && n in Next(w, s).names
    ensures NameOk(Next(w, s), n)
  {
    assert n in w.names ==> NameOk(w, n);
    hide Full, Failed, LinkedOk;
  }

  lemma OwnersKept(w: World, s: Step)
    requires NamesOk(w) && Enabled(w, s)
    ensures var v := Next(w, s); forall i <- v.owners :: i < |v.inodes| && v.owners[i] in v.exporters
  {
    hide NameOk, Failed, Full;
  }

  lemma ActorKept(w: World, s: Step)
    requires Inv(w) && Enabled(w, s)
    ensures ExporterOk(Next(w, s), s.e)
  {
    if s.e in w.exporters {
      assert ExporterOk(w, s.e);
    }
    ActorPrivate(w, s);
    ActorLinked(w, s);
    hide Next, PrivateOk, LinkedOk, NamesOk;
  }

  lemma ActorPrivate(w: World, s: Step)
    requires Enabled(w, s) && NamesOk(w) && (s.e in w.exporters ==> ExporterOk(w, s.e))
    ensures PrivateOk(Next(w, s), s.e, Get(Next(w, s), s.e))
  {
    hide NameOk;
  }

  lemma ActorLinked(w: World, s: Step)
    requires Enabled(w, s) && (s.e in w.exporters ==> ExporterOk(w, s.e))
    ensures LinkedOk(Next(w, s), Get(Next(w, s), s.e))
  {
  }

  /** Other exporters are not disturbed, whatever names they have in common. */
  lemma OthersKept(w: World, s: Step, d: nat)
    requires Inv(w) && Enabled(w, s) && d in w.exporters && d != s.e
    ensures ExporterOk(Next(w, s), d) && Get(Next(w, s), d) == Get(w, d)
  {
    assert ExporterOk(w, d);
    if s.e in w.exporters {
      assert ExporterOk(w, s.e);
    }
    NoTheft(w, s, d);
    OthersPrivate(w, s, d);
    OthersLinked(w, s, d);
    hide NamesOk, LinkedOk, PrivateOk, Next, Enabled;
  }

  lemma OthersPrivate(w: World, s: Step, d: nat)
    requires Enabled(w, s) && d != s.e && PrivateOk(w, d, Get(w, d))
    requires s.e in w.exporters ==> PrivateOk(w, s.e, Get(w, s.e))
    requires Held(w, Get(w, d)) ==> Held(Next(w, s), Get(w, d))
    ensures PrivateOk(Next(w, s), d, Get(w, d))
  {
    hide Failed, Full;
  }

  lemma NoTheft(w: World, s: Step, d: nat)
    requires Enabled(w, s) && d != s.e && ExporterOk(w, d) && (s.e in w.exporters ==> ExporterOk(w, s.e))
    ensures Get(Next(w, s), d) == Get(w, d)
    ensures Held(w, Get(w, d)) ==> Held(Next(w, s), Get(w, d))
  {
    hide LinkedOk, Failed, Full;
  }

  lemma OthersLinked(w: World, s: Step, d: nat)
    requires Enabled(w, s) && d != s.e && ExporterOk(w, d) && (s.e in w.exporters ==> ExporterOk(w, s.e))
    ensures LinkedOk(Next(w, s), Get(w, d))
  {
    hide Failed, Full;
  }

  lemma InvKept(w: World, s: Step)
    requires Inv(w) && Enabled(w, s)
    ensures Inv(Next(w, s))
  {
    var v := Next(w, s);
    NamesKept(w, s);
    ExportersAfter(w, s);
    hide Enabled, Next, NamesOk, ExporterOk;
    forall d | d in v.exporters ensures ExporterOk(v, d) {
      if d == s.e {
        ActorKept(w, s);
      } else {
        OthersKept(w, s, d);
      }
    }
  }

  lemma ExportersAfter(w: World, s: Step)
    requires Enabled(w, s)
    ensures Next(w, s).exporters.Keys == w.exporters.Keys + {s.e}
  {
  }

  lemma {:induction false} Invariant(ws: seq<World>, steps: seq<Step>, i: nat)
    requires Run(ws, steps) && i < |ws|
    ensures Inv(ws[i])
  {
    hide Enabled, Next;
    if i > 0 {
      Invariant(ws, steps, i - 1);
      InvKept(ws[i - 1], steps[i - 1]);
    }
  }

  // ------------------------------------------------------------ the theorems

  /** This exporter's bytes, all of them, stand at its destination. */
  predicate Published(w: World, e: nat) {
    var x := Get(w, e);
    x.linked && x.dest in w.names && w.names[x.dest] < |w.inodes| && w.inodes[w.names[x.dest]] == x.raw
  }

  predicate LinkedTo(w: World, e: nat, n: bytes) {
    Get(w, e).linked && Get(w, e).dest == n
  }

  /** In every world of every run: success, or doubt, means published in full;
      refusal means never linked, or a link that took effect but was reported as an
      error; and a destination has one publisher at most. */
  lemma Outcomes(ws: seq<World>, steps: seq<Step>, i: nat)
    requires Run(ws, steps) && i < |ws|
    ensures forall e <- ws[i].exporters :: Get(ws[i], e).linked ==> Published(ws[i], e)
    ensures forall e <- ws[i].exporters :: Get(ws[i], e).pc.Done? ==>
              (Get(ws[i], e).pc.outcome.Refused? <==> !Get(ws[i], e).linked || Get(ws[i], e).unheard)
    ensures forall e <- ws[i].exporters :: Get(ws[i], e).unheard ==> Get(ws[i], e).linked
    ensures forall d <- ws[i].exporters, e <- ws[i].exporters ::
              LinkedTo(ws[i], d, Get(ws[i], e).dest) && Get(ws[i], e).linked ==> d == e
  {
    Invariant(ws, steps, i);
    hide Run, NamesOk;
    assert forall e <- ws[i].exporters :: ExporterOk(ws[i], e);
  }

  lemma UnheardStep(w: World, s: Step, e: nat)
    requires Enabled(w, s)
    ensures Get(Next(w, s), e).unheard <==> Get(w, e).unheard || s == LinkUnheard(e)
  {
    hide Held, Full, Failed;
  }

  lemma {:induction false} UnheardSteps(ws: seq<World>, steps: seq<Step>, i: nat, e: nat)
    requires Run(ws, steps) && i < |ws|
    ensures Get(ws[i], e).unheard <==> exists k :: 0 <= k < i && steps[k] == LinkUnheard(e)
  {
    if i > 0 {
      UnheardSteps(ws, steps, i - 1, e);
      UnheardStep(ws[i - 1], steps[i - 1], e);
      hide Enabled, Next, Get;
      if Get(ws[i], e).unheard && steps[i - 1] != LinkUnheard(e) {
        var k :| 0 <= k < i - 1 && steps[k] == LinkUnheard(e);
      }
    }
  }

  /** A refused export was published all the same exactly when its link took effect
      and was reported as an error. */
  lemma RefusedExact(ws: seq<World>, steps: seq<Step>, i: nat, e: nat)
    requires Run(ws, steps) && i < |ws| && e in ws[i].exporters && Get(ws[i], e).pc == Done(Refused)
    ensures Published(ws[i], e) <==> exists k :: 0 <= k < i && steps[k] == LinkUnheard(e)
  {
    hide Run;
    Outcomes(ws, steps, i);
    UnheardSteps(ws, steps, i, e);
  }

  lemma RunMore(ws: seq<World>, steps: seq<Step>, s: Step) returns (w: World)
    requires Run(ws, steps) && |ws| == |steps| + 1 && Enabled(ws[|steps|], s)
    ensures w == Next(ws[|steps|], s) && Run(ws + [w], steps + [s])
  {
    w := Next(ws[|steps|], s);
    hide Enabled, Next, Initial;
    var us, more := ws + [w], steps + [s];
    forall i | 0 <= i < |more| ensures Enabled(us[i], more[i]) && us[i + 1] == Next(us[i], more[i]) {
      if i < |steps| {
        assert us[i] == ws[i] && us[i + 1] == ws[i + 1] && more[i] == steps[i];
      }
    }
  }

  /** Such a refusal happens: in any directory where both names are free, a single
      exporter whose link is reported as an error is refused, with its whole export
      at its destination. */
  lemma RefusedYetPublished(w: World, dest: bytes, name: bytes, raw: bytes) returns (ws: seq<World>, steps: seq<Step>)
    requires Initial(w) && dest !in w.names && name !in w.names && dest != name && |raw| <= MAX_BYTES
    ensures Run(ws, steps) && ws[0] == w
    ensures var last := ws[|steps|]; Get(last, 0).pc == Done(Refused) && Published(last, 0) && Get(last, 0).raw == raw
  {
    hide *;
    var v1, v2 := Begun(w, dest, raw, Begin), Begun(w, dest, raw, Absent);
    var v3, v4 := Alone(w, dest, name, raw, [], Writing), Alone(w, dest, name, raw, raw, Writing);
    var v5, v6 := Alone(w, dest, name, raw, raw, Ready), Alone(w, dest, name, raw, raw, Confirmed);
    AloneStarts(w, dest, name, raw);
    AloneFills(w, dest, name, raw);
    AloneLinks(w, dest, name, raw);
    RunStarts(w);
    ws, steps := RunTo([w], [], Start(0, dest, raw), v1);
    ws, steps := RunTo(ws, steps, Look(0), v2);
    ws, steps := RunTo(ws, steps, Create(0, name), v3);
    ws, steps := RunTo(ws, steps, Write(0, |raw|), v4);
    ws, steps := RunTo(ws, steps, Finish(0), v5);
    ws, steps := RunTo(ws, steps, Confirm(0), v6);
    ws, steps := RunTo(ws, steps, LinkUnheard(0), Next(v6, LinkUnheard(0)));
    ws, steps := RunTo(ws, steps, Fail(0), Next(Next(v6, LinkUnheard(0)), Fail(0)));
  }

  lemma RunTo(ws: seq<World>, steps: seq<Step>, s: Step, w: World) returns (us: seq<World>, more: seq<Step>)
    requires Run(ws, steps) && |ws| == |steps| + 1 && Enabled(ws[|steps|], s) && w == Next(ws[|steps|], s)
    ensures Run(us, more) && |us| == |more| + 1 && us[0] == ws[0] && us[|more|] == w
  {
    hide Run;
    var v := RunMore(ws, steps, s);
    us, more := ws + [v], steps + [s];
  }

  /** The directory once exporter 0 alone has started. */
  function Begun(w: World, dest: bytes, raw: bytes, pc: Pc): World {
    w.(exporters := map[0 := Exporter(dest, raw, pc, None, false, false)])
  }

  /** The directory once exporter 0 alone has a private file with this much in it. */
  function Alone(w: World, dest: bytes, name: bytes, raw: bytes, data: bytes, pc: Pc): World {
    World(w.names[name := |w.inodes|], w.inodes + [data], map[|w.inodes| := 0],
          map[0 := Exporter(dest, raw, pc, Some(Private(name, |w.inodes|)), false, false)])
  }

  lemma AloneStarts(w: World, dest: bytes, name: bytes, raw: bytes)
    requires Initial(w) && dest !in w.names && name !in w.names && |raw| <= MAX_BYTES
    ensures Enabled(w, Start(0, dest, raw)) && Next(w, Start(0, dest, raw)) == Begun(w, dest, raw, Begin)
    ensures var v := Begun(w, dest, raw, Begin); Enabled(v, Look(0)) && Next(v, Look(0)) == Begun(w, dest, raw, Absent)
    ensures var v := Begun(w, dest, raw, Absent);
            Enabled(v, Create(0, name)) && Next(v, Create(0, name)) == Alone(w, dest, name, raw, [], Writing)
  {
  }

  lemma AloneFills(w: World, dest: bytes, name: bytes, raw: bytes)
    ensures var v := Alone(w, dest, name, raw, [], Writing);
            Enabled(v, Write(0, |raw|)) && Next(v, Write(0, |raw|)) == Alone(w, dest, name, raw, raw, Writing)
    ensures var v := Alone(w, dest, name, raw, raw, Writing);
            Enabled(v, Finish(0)) && Next(v, Finish(0)) == Alone(w, dest, name, raw, raw, Ready)
    ensures var v := Alone(w, dest, name, raw, raw, Ready);
            Enabled(v, Confirm(0)) && Next(v, Confirm(0)) == Alone(w, dest, name, raw, raw, Confirmed)
  {
    assert [] + raw[0..|raw|] == raw;
  }

  lemma AloneLinks(w: World, dest: bytes, name: bytes, raw: bytes)
    requires dest !in w.names && dest != name
    ensures var v := Alone(w, dest, name, raw, raw, Confirmed);
            Enabled(v, LinkUnheard(0))
            && var u := Next(v, LinkUnheard(0));
            Enabled(u, Fail(0))
            && var last := Next(u, Fail(0));
            Get(last, 0).pc == Done(Refused) && Get(last, 0).raw == raw && Published(last, 0)
  {
  }

  lemma RunStarts(w: World)
    requires Initial(w)
    ensures Run([w], [])
  {
  }

  /** The name denotes a file from before, or a published export. */
  ghost predicate Settled(w: World, n: bytes) {
    n in w.names && w.names[n] < |w.inodes|
    && (w.names[n] in w.owners ==> exists e :: e in w.exporters && LinkedTo(w, e, n))
  }

  function Contents(w: World, n: bytes): bytes {
    if n in w.names && w.names[n] < |w.inodes| then w.inodes[w.names[n]] else []
  }

  lemma PublishedSettled(w: World, e: nat)
    requires Inv(w) && e in w.exporters && Get(w, e).linked
    ensures Settled(w, Get(w, e).dest) && Contents(w, Get(w, e).dest) == Get(w, e).raw
  {
    hide NamesOk;
    assert ExporterOk(w, e);
    assert LinkedTo(w, e, Get(w, e).dest);
  }

  lemma StepSettled(w: World, s: Step, n: bytes)
    requires Inv(w) && Enabled(w, s) && Settled(w, n)
    ensures Settled(Next(w, s), n) && Contents(Next(w, s), n) == Contents(w, n)
  {
    var v := Next(w, s);
    if s.e in w.exporters {
      assert ExporterOk(w, s.e);
    }
    NameStays(w, s, n);
    ExportersAfter(w, s);
    if w.names[n] in w.owners {
      var e :| e in w.exporters && LinkedTo(w, e, n);
      assert ExporterOk(w, e);
      LinkStays(w, s, e, n);
    }
    hide Next, Enabled, ExporterOk, NamesOk;
  }

  lemma LinkStays(w: World, s: Step, e: nat, n: bytes)
    requires Enabled(w, s) && e in w.exporters && LinkedTo(w, e, n)
    ensures LinkedTo(Next(w, s), e, n)
  {
    hide Failed, Full, Held;
  }

  lemma NameStays(w: World, s: Step, n: bytes)
    requires Enabled(w, s) && Settled(w, n) && Inv(w)
    ensures var v := Next(w, s);
            && n in v.names && v.names[n] == w.names[n] && |w.inodes| <= |v.inodes|
            && v.inodes[v.names[n]] == w.inodes[w.names[n]]
            && (v.names[n] in v.owners ==> v.names[n] in w.owners)
  {
  }

  /** A name that denotes a file from before, or a published export, denotes the
      same bytes ever after: nothing is replaced and nothing removed. */
  lemma {:induction false} NeverReplaced(ws: seq<World>, steps: seq<Step>, i: nat, j: nat, n: bytes)
    requires Run(ws, steps) && i <= j < |ws| && Settled(ws[i], n)
    ensures Settled(ws[j], n) && Contents(ws[j], n) == Contents(ws[i], n)
    decreases j
  {
    hide Enabled, Next, NamesOk, ExporterOk, Settled, Contents;
    if i < j {
      NeverReplaced(ws, steps, i, j - 1, n);
      Invariant(ws, steps, j - 1);
      StepSettled(ws[j - 1], steps[j - 1], n);
    }
  }

  /** Once an export is published, its destination denotes its bytes for the rest of
      the run, whatever becomes of its exporter and the others. */
  lemma SuccessKept(ws: seq<World>, steps: seq<Step>, i: nat, j: nat, e: nat)
    requires Run(ws, steps) && i <= j < |ws| && e in ws[i].exporters
    requires Get(ws[i], e).linked || (Get(ws[i], e).pc.Done? && !Get(ws[i], e).pc.outcome.Refused?)
    ensures Get(ws[i], e).dest in ws[j].names && Contents(ws[j], Get(ws[i], e).dest) == Get(ws[i], e).raw
  {
    Invariant(ws, steps, i);
    Outcomes(ws, steps, i);
    hide Run, NamesOk, ExporterOk, Contents;
    PublishedSettled(ws[i], e);
    NeverReplaced(ws, steps, i, j, Get(ws[i], e).dest);
  }

  /** A name that comes to be settled was absent before, and what appears there is
      one exporter's complete export. */
  lemma AppearsComplete(w: World, s: Step, n: bytes)
    requires Inv(w) && Enabled(w, s) && !Settled(w, n) && Settled(Next(w, s), n)
    ensures (s.Link? || s.LinkUnheard?) && n !in w.names && n == Get(w, s.e).dest && Contents(Next(w, s), n) == Get(w, s.e).raw
  {
    if s.e in w.exporters {
      assert ExporterOk(w, s.e);
    }
    hide Failed, NamesOk, Full;
    if n in w.names {
      PrivateStays(w, s, n);
    }
  }

  /** A private name never turns into a settled one. */
  lemma PrivateStays(w: World, s: Step, n: bytes)
    requires Inv(w) && Enabled(w, s) && n in w.names && !Settled(w, n)
    ensures !Settled(Next(w, s), n)
  {
    assert NameOk(w, n);
    if s.e in w.exporters {
      assert ExporterOk(w, s.e);
    }
    hide Failed, NamesOk, Full, LinkedOk;
    var v := Next(w, s);
    forall e | e in v.exporters && !LinkedTo(w, e, n) ensures !LinkedTo(v, e, n) {
    }
  }

  // --------------------------------------------------------- bystanders

  lemma Bystander(w: World, s: Step, e: nat)
    requires Enabled(w, s) && s.e != e && e in w.exporters
    ensures e in Next(w, s).exporters && Get(Next(w, s), e) == Get(w, e)
  {
  }
}
