/** Which exports must succeed, and what alone leaves a doubt. */
module PublicationRuns {
  import opened Prelude
  import opened Publication

  // src/engine/diagnostic_io.rs, `write_export`: the other half of the protocol,
  // from the steps that were taken to the outcome.

  /** The destination of exporter `e` was taken when it looked, or when it linked. */
  ghost predicate Taken(ws: seq<World>, steps: seq<Step>, i: nat, e: nat)
    requires i <= |steps| && i < |ws|
  {
    exists k :: 0 <= k < i && (steps[k] == Look(e) || steps[k] == Link(e)) && Get(ws[k], e).dest in ws[k].names
  }

  ghost predicate Took(steps: seq<Step>, i: nat, s: Step)
    requires i <= |steps|
  {
    exists k :: 0 <= k < i && steps[k] == s
  }

  /** Nothing has gone wrong for exporter `e`, as its steps tell. */
  ghost predicate Smooth(ws: seq<World>, steps: seq<Step>, i: nat, e: nat)
    requires i <= |steps| && i < |ws|
  {
    !Took(steps, i, Fail(e)) && !Took(steps, i, Crash(e)) && !Took(steps, i, LinkUnheard(e)) && !Taken(ws, steps, i, e)
  }

  /** Where such an exporter may stand. */
  predicate OnTheWay(pc: Pc) {
    match pc
    case Closing(outcome) => outcome == Success
    case Dropping(outcome) => outcome == Success
    case Done(outcome) => outcome == Success
    case Crashed => false
    case _ => true
  }

  lemma OnwardStep(w: World, s: Step, e: nat)
    requires Enabled(w, s) && (e in w.exporters ==> ExporterOk(w, e) && OnTheWay(Get(w, e).pc))
    requires s != Fail(e) && s != Crash(e) && s != LinkUnheard(e)
    requires s == Look(e) || s == Link(e) ==> Get(w, e).dest !in w.names
    ensures e in Next(w, s).exporters ==> OnTheWay(Get(Next(w, s), e).pc)
  {
    if s.e != e {
      if e in w.exporters {
        Bystander(w, s, e);
      }
      ExportersAfter(w, s);
    } else {
      hide Failed;
      if s.Inspect? {
        ClosingEnds(w, e);
      }
    }
  }

  lemma ClosingEnds(w: World, e: nat)
    ensures Get(w, e).pc.Closing? ==> Failed(Get(w, e)) == Done(Get(w, e).pc.outcome)
  {
  }

  lemma {:induction false} SmoothOnTheWay(ws: seq<World>, steps: seq<Step>, i: nat, e: nat)
    requires Run(ws, steps) && i < |ws| && Smooth(ws, steps, i, e) && e in ws[i].exporters
    ensures OnTheWay(Get(ws[i], e).pc)
  {
    hide *;
    if i == 0 {
      NobodyYet(ws, steps);
    } else {
      StepOf(ws, steps, i - 1);
      SmoothBefore(ws, steps, i, e);
      if e in ws[i - 1].exporters {
        SmoothOnTheWay(ws, steps, i - 1, e);
        Invariant(ws, steps, i - 1);
        InvHas(ws[i - 1], e);
      }
      OnwardStep(ws[i - 1], steps[i - 1], e);
    }
  }

  lemma NobodyYet(ws: seq<World>, steps: seq<Step>)
    requires Run(ws, steps)
    ensures ws != [] && ws[0].exporters == map[]
  {
    hide Enabled, Next;
  }

  lemma StepOf(ws: seq<World>, steps: seq<Step>, i: nat)
    requires Run(ws, steps) && i + 1 < |ws|
    ensures i < |steps| && Enabled(ws[i], steps[i]) && ws[i + 1] == Next(ws[i], steps[i])
  {
    hide Enabled, Next, Initial;
  }

  lemma InvHas(w: World, e: nat)
    requires Inv(w) && e in w.exporters
    ensures ExporterOk(w, e)
  {
    hide ExporterOk, NamesOk;
  }

  lemma SmoothBefore(ws: seq<World>, steps: seq<Step>, i: nat, e: nat)
    requires 0 < i <= |steps| && i < |ws| && Smooth(ws, steps, i, e)
    ensures Smooth(ws, steps, i - 1, e)
    ensures steps[i - 1] != Fail(e) && steps[i - 1] != Crash(e) && steps[i - 1] != LinkUnheard(e)
    ensures steps[i - 1] == Look(e) || steps[i - 1] == Link(e) ==> Get(ws[i - 1], e).dest !in ws[i - 1].names
  {
    hide Get;
  }

  /** An export to which nothing happens, and whose destination is free when it looks
      and when it links, can only end in success. */
  lemma SmoothSucceeds(ws: seq<World>, steps: seq<Step>, i: nat, e: nat)
    requires Run(ws, steps) && i < |ws| && e in ws[i].exporters && Get(ws[i], e).pc.Done?
    requires Smooth(ws, steps, i, e)
    ensures Get(ws[i], e).pc == Done(Success)
  {
    hide Run, Smooth;
    SmoothOnTheWay(ws, steps, i, e);
  }

  /** A step of its own that an exporter may take. */
  lemma Progress(w: World, e: nat, name: bytes)
    requires Inv(w) && e in w.exporters && name !in w.names
    requires !Get(w, e).pc.Done? && !Get(w, e).pc.Crashed?
    ensures exists s: Step :: s.e == e && !s.Fail? && !s.Crash? && !s.LinkUnheard? && Enabled(w, s)
  {
    assert ExporterOk(w, e);
    hide NamesOk;
    var x := Get(w, e);
    var s := match x.pc
      case Begin => Look(e)
      case Absent => Create(e, name)
      case Writing =>
        if Full(w, x) then Finish(e) else Write(e, |x.raw| - |w.inodes[x.private.value.inode]|)
      case Ready => Confirm(e)
      case Confirmed => Link(e)
      case Linked => Inspect(e)
      case Removing => Unlink(e)
      case Tidied => Conclude(e)
      case Closing(_) => Inspect(e)
      case Dropping(_) => Unlink(e)
      case _ => Look(e);
    assert Enabled(w, s);
  }

  /** Until it has ended, an exporter may fail or stop wherever it stands, and its
      link may take effect unheard. */
  lemma Fallible(w: World, e: nat)
    requires Inv(w) && e in w.exporters && !Get(w, e).pc.Done? && !Get(w, e).pc.Crashed?
    ensures Enabled(w, Fail(e)) && Enabled(w, Crash(e))
    ensures Get(w, e).pc.Confirmed? && Get(w, e).dest !in w.names ==> Enabled(w, LinkUnheard(e))
  {
    InvHas(w, e);
    hide Inv;
  }

  // ------------------------------------------------------------ what leaves a doubt

  predicate Doubtful(pc: Pc) {
    (pc.Closing? || pc.Dropping? || pc.Done?) && pc.outcome == Uncertain
  }

  /** A failure came after the link. */
  ghost predicate FailedAfterLink(steps: seq<Step>, i: nat, e: nat)
    requires i <= |steps|
  {
    exists j, k :: 0 <= j < k < i && steps[j] == Link(e) && steps[k] == Fail(e)
  }

  lemma DoubtStep(w: World, s: Step, e: nat)
    requires Enabled(w, s) && (e in w.exporters ==> ExporterOk(w, e)) && Doubtful(Get(Next(w, s), e).pc)
    ensures Doubtful(Get(w, e).pc) || (s == Fail(e) && Get(w, e).linked && !Get(w, e).unheard)
  {
    if s.e != e {
      if e in w.exporters {
        Bystander(w, s, e);
      }
    }
  }

  lemma LinkStep(w: World, s: Step, e: nat)
    requires Enabled(w, s) && Get(Next(w, s), e).linked && !Get(Next(w, s), e).unheard
    ensures (Get(w, e).linked && !Get(w, e).unheard) || s == Link(e)
  {
    hide Failed, Held, Full;
  }

  lemma {:induction false} LinkedBy(ws: seq<World>, steps: seq<Step>, i: nat, e: nat)
    requires Run(ws, steps) && i < |ws| && Get(ws[i], e).linked && !Get(ws[i], e).unheard
    ensures Took(steps, i, Link(e))
  {
    if i > 0 {
      LinkStep(ws[i - 1], steps[i - 1], e);
      hide Next, Enabled;
      if steps[i - 1] != Link(e) {
        LinkedBy(ws, steps, i - 1, e);
      }
    }
  }

  lemma FailureStays(steps: seq<Step>, i: nat, e: nat)
    requires 0 < i <= |steps| && FailedAfterLink(steps, i - 1, e)
    ensures FailedAfterLink(steps, i, e)
  {
  }

  lemma FailureAfter(steps: seq<Step>, i: nat, e: nat)
    requires 0 < i <= |steps| && Took(steps, i - 1, Link(e)) && steps[i - 1] == Fail(e)
    ensures FailedAfterLink(steps, i, e)
  {
  }

  /** A doubt is left only by a failure after the exporter's own link. */
  lemma {:induction false} UncertainOnly(ws: seq<World>, steps: seq<Step>, i: nat, e: nat)
    requires Run(ws, steps) && i < |ws| && Doubtful(Get(ws[i], e).pc)
    ensures FailedAfterLink(steps, i, e)
  {
    if i > 0 {
      StepOf(ws, steps, i - 1);
      hide Run, Next, Enabled, Inv, ExporterOk, Get, Doubtful, FailedAfterLink, Took;
      Invariant(ws, steps, i - 1);
      if e in ws[i - 1].exporters {
        InvHas(ws[i - 1], e);
      }
      DoubtStep(ws[i - 1], steps[i - 1], e);
      if Doubtful(Get(ws[i - 1], e).pc) {
        UncertainOnly(ws, steps, i - 1, e);
        FailureStays(steps, i, e);
      } else {
        LinkedBy(ws, steps, i - 1, e);
        FailureAfter(steps, i, e);
      }
    } else {
      NoneYet(ws[0], e);
    }
  }

  lemma NoneYet(w: World, e: nat)
    requires Initial(w)
    ensures !Doubtful(Get(w, e).pc)
  {
  }

  // ------------------------------------------------------------ a run to success

  /** The directory after the link of exporter 0 alone, at this point. */
  function AloneLinked(w: World, dest: bytes, name: bytes, raw: bytes, pc: Pc, tidied: bool): World {
    var v := Alone(w, dest, name, raw, raw, pc);
    var names := w.names[name := |w.inodes|][dest := |w.inodes|];
    World(if tidied then names - {name} else names, v.inodes, v.owners,
          map[0 := Exporter(dest, raw, pc, Some(Private(name, |w.inodes|)), true, false)])
  }

  lemma AloneMakesLink(w: World, dest: bytes, name: bytes, raw: bytes)
    requires dest !in w.names && dest != name
    ensures var v := Alone(w, dest, name, raw, raw, Confirmed);
            Enabled(v, Link(0)) && Next(v, Link(0)) == AloneLinked(w, dest, name, raw, Linked, false)
  {
  }

  lemma AloneInspects(w: World, dest: bytes, name: bytes, raw: bytes)
    requires dest != name
    ensures var v := AloneLinked(w, dest, name, raw, Linked, false);
            Enabled(v, Inspect(0)) && Next(v, Inspect(0)) == AloneLinked(w, dest, name, raw, Removing, false)
  {
  }

  lemma AloneTidies(w: World, dest: bytes, name: bytes, raw: bytes)
    requires dest != name
    ensures var v := AloneLinked(w, dest, name, raw, Removing, false);
            Enabled(v, Unlink(0)) && Next(v, Unlink(0)) == AloneLinked(w, dest, name, raw, Tidied, true)
  {
  }

  lemma AloneConcludes(w: World, dest: bytes, name: bytes, raw: bytes)
    requires dest != name
    ensures var v := AloneLinked(w, dest, name, raw, Tidied, true);
            Enabled(v, Conclude(0)) && Next(v, Conclude(0)) == AloneLinked(w, dest, name, raw, Closing(Success), true)
  {
  }

  lemma AloneCloses(w: World, dest: bytes, name: bytes, raw: bytes)
    requires dest != name
    ensures var v := AloneLinked(w, dest, name, raw, Closing(Success), true);
            Enabled(v, Inspect(0)) && Next(v, Inspect(0)) == AloneLinked(w, dest, name, raw, Done(Success), true)
  {
  }

  /** In any directory where both names are free, a single exporter to which nothing
      happens succeeds, leaves its whole export, and tidies its private name away. */
  lemma SucceedsAlone(w: World, dest: bytes, name: bytes, raw: bytes) returns (ws: seq<World>, steps: seq<Step>)
    requires Initial(w) && dest !in w.names && name !in w.names && dest != name && |raw| <= MAX_BYTES
    ensures Run(ws, steps) && ws[0] == w
    ensures var last := ws[|steps|];
            && Get(last, 0).pc == Done(Success) && Published(last, 0) && Get(last, 0).raw == raw
            && last.names == w.names[dest := |w.inodes|] && last.inodes == w.inodes + [raw]
  {
    hide *;
    var v1, v2 := Begun(w, dest, raw, Begin), Begun(w, dest, raw, Absent);
    var v3, v4 := Alone(w, dest, name, raw, [], Writing), Alone(w, dest, name, raw, raw, Writing);
    var v5, v6 := Alone(w, dest, name, raw, raw, Ready), Alone(w, dest, name, raw, raw, Confirmed);
    AloneStarts(w, dest, name, raw);
    AloneFills(w, dest, name, raw);
    AloneMakesLink(w, dest, name, raw);
    AloneInspects(w, dest, name, raw);
    AloneTidies(w, dest, name, raw);
    AloneConcludes(w, dest, name, raw);
    AloneCloses(w, dest, name, raw);
    AloneEnds(w, dest, name, raw);
    RunStarts(w);
    ws, steps := RunTo([w], [], Start(0, dest, raw), v1);
    ws, steps := RunTo(ws, steps, Look(0), v2);
    ws, steps := RunTo(ws, steps, Create(0, name), v3);
    ws, steps := RunTo(ws, steps, Write(0, |raw|), v4);
    ws, steps := RunTo(ws, steps, Finish(0), v5);
    ws, steps := RunTo(ws, steps, Confirm(0), v6);
    ws, steps := RunTo(ws, steps, Link(0), AloneLinked(w, dest, name, raw, Linked, false));
    ws, steps := RunTo(ws, steps, Inspect(0), AloneLinked(w, dest, name, raw, Removing, false));
    ws, steps := RunTo(ws, steps, Unlink(0), AloneLinked(w, dest, name, raw, Tidied, true));
    ws, steps := RunTo(ws, steps, Conclude(0), AloneLinked(w, dest, name, raw, Closing(Success), true));
    ws, steps := RunTo(ws, steps, Inspect(0), AloneLinked(w, dest, name, raw, Done(Success), true));
  }

  lemma AloneEnds(w: World, dest: bytes, name: bytes, raw: bytes)
    requires dest !in w.names && name !in w.names && dest != name
    ensures var last := AloneLinked(w, dest, name, raw, Done(Success), true);
            && Get(last, 0).pc == Done(Success) && Published(last, 0) && Get(last, 0).raw == raw
            && last.names == w.names[dest := |w.inodes|] && last.inodes == w.inodes + [raw]
  {
  }
}
